/**
 * LogShortStatData: the two passes over the reversed `git log --shortstat`
 * output and the dictionaries their callbacks fill.
 *
 * The dictionaries are gathered in the value type Accumulated; each callback
 * is a pure update of it (LinesModified, LinesModifiedByAuthor,
 * MergeCommitRecorded), and the class's methods are proved to perform exactly
 * those updates. A whole pass is proved to leave the object as the pure
 * machine Run says, with the dictionaries folded over the events it fired.
 */
module LogShortStat {
  import opened Wrappers
  import opened Text
  import opened ShortStat

  /** The local-time fields of a commit date: `strftime('%Y-%m')` and `.year`. */
  datatype Calendar = Calendar(yearMonth: string, year: int)

  /** One `changes_by_date[stamp_key]` record. */
  datatype DateChange = DateChange(files: nat, inserted: nat, deleted: nat, lines: int)

  /** One `changes_by_date_by_author[stamp_key][author]` record; a missing 'merge_commit' reads as false. */
  datatype AuthorChange = AuthorChange(linesAdded: nat, linesRemoved: nat, commits: nat, mergeCommit: bool)

  /**
   * The keys 'commits', 'lines_added' and 'lines_removed' of an
   * `_authors_of_repository[author]` dictionary; None is a key the dictionary
   * does not have.  The dictionary is shared with GitContributionActivity, so
   * an author may be present with none of these keys yet.
   */
  datatype AuthorKeys = AuthorKeys(commits: Option<nat>, linesAdded: Option<nat>, linesRemoved: Option<nat>)

  const NoKeys := AuthorKeys(None, None, None)

  /** The three counters read with `.get(key, 0)`. */
  datatype AuthorCounts = AuthorCounts(linesAdded: nat, linesRemoved: nat, commits: nat)

  /** The dictionaries of LogShortStatData. */
  datatype Accumulated = Accumulated(
    totalLines: map<string, int>,
    totalLinesAdded: map<string, nat>,
    totalLinesRemoved: map<string, nat>,
    changesByDate: map<string, DateChange>,
    linesAddedByMonth: map<string, nat>,
    linesRemovedByMonth: map<string, nat>,
    linesAddedByYear: map<int, nat>,
    linesRemovedByYear: map<int, nat>,
    changesByDateByAuthor: map<string, map<string, AuthorChange>>,
    authorsOfRepository: map<string, AuthorKeys>)

  const Empty := Accumulated(map[], map[], map[], map[], map[], map[], map[], map[], map[], map[])

  /** `d.get(k, 0)`. */
  function Get<K>(m: map<K, int>, k: K): int
  {
    if k in m then m[k] else 0
  }

  function GetNat<K>(m: map<K, nat>, k: K): nat
  {
    if k in m then m[k] else 0
  }

  /** `.get(key, 0)` on one key. */
  function OrZero(k: Option<nat>): nat
  {
    if k.Some? then k.value else 0
  }

  /** The author's keys, or none when the author has no dictionary yet. */
  function KeysOf(a: Accumulated, author: string): AuthorKeys
  {
    if author in a.authorsOfRepository then a.authorsOfRepository[author] else NoKeys
  }

  /** The author's counters, each read with `.get(key, 0)`. */
  function AuthorGet(a: Accumulated, author: string): AuthorCounts
  {
    var k := KeysOf(a, author);
    AuthorCounts(OrZero(k.linesAdded), OrZero(k.linesRemoved), OrZero(k.commits))
  }

  /** `total_lines[r] == total_lines_added[r] - total_lines_removed[r]`, over the same repositories. */
  predicate Consistent(a: Accumulated)
  {
    && a.totalLines.Keys == a.totalLinesAdded.Keys
    && a.totalLines.Keys == a.totalLinesRemoved.Keys
    && forall r :: r in a.totalLines ==> a.totalLines[r] == a.totalLinesAdded[r] as int - a.totalLinesRemoved[r] as int
  }

  // ---------------------------------------------------------------------------
  // The callbacks, as updates of the dictionaries

  /** `_update_total_lines`. */
  function TotalLinesUpdated(a: Accumulated, repository: string, inserted: nat, deleted: nat): Accumulated
  {
    a.(totalLines := a.totalLines[repository := Get(a.totalLines, repository) + inserted - deleted],
       totalLinesAdded := a.totalLinesAdded[repository := GetNat(a.totalLinesAdded, repository) + inserted],
       totalLinesRemoved := a.totalLinesRemoved[repository := GetNat(a.totalLinesRemoved, repository) + deleted])
  }

  /** TotalLinesUpdated on the three totals as they stand. */
  lemma TotalLinesUpdatedOf(a: Accumulated, repository: string, inserted: nat, deleted: nat,
                            lines: map<string, int>, added: map<string, nat>, removed: map<string, nat>)
    requires a.totalLines == lines && a.totalLinesAdded == added && a.totalLinesRemoved == removed
    ensures TotalLinesUpdated(a, repository, inserted, deleted) ==
      a.(totalLines := lines[repository := Get(lines, repository) + inserted - deleted],
         totalLinesAdded := added[repository := GetNat(added, repository) + inserted],
         totalLinesRemoved := removed[repository := GetNat(removed, repository) + deleted])
  {
  }

  /** `_update_lines_modified_by_month`. */
  function MonthUpdated(a: Accumulated, date: Calendar, inserted: nat, deleted: nat): Accumulated
  {
    var m := date.yearMonth;
    a.(linesAddedByMonth := a.linesAddedByMonth[m := GetNat(a.linesAddedByMonth, m) + inserted],
       linesRemovedByMonth := a.linesRemovedByMonth[m := GetNat(a.linesRemovedByMonth, m) + deleted])
  }

  /** `_update_lines_modified_by_year`. */
  function YearUpdated(a: Accumulated, date: Calendar, inserted: nat, deleted: nat): Accumulated
  {
    var y := date.year;
    a.(linesAddedByYear := a.linesAddedByYear[y := GetNat(a.linesAddedByYear, y) + inserted],
       linesRemovedByYear := a.linesRemovedByYear[y := GetNat(a.linesRemovedByYear, y) + deleted])
  }

  /**
   * `_update_lines_modified(repository, line)` with the pending counts `c`:
   * `int(stamp)` raises on a first field that is not a number.
   */
  function LinesModified(a: Accumulated, repository: string, calendar: int -> Calendar, header: string, c: Counts): Result<Accumulated>
  {
    var stamp := FirstField(header);
    match ParseInt(stamp)
    case None => Err(ValueError(stamp))
    case Some(n) =>
      var t := TotalLinesUpdated(a, repository, c.inserted, c.deleted);
      var key := StampKey(stamp, repository);
      var d := t.(changesByDate := t.changesByDate[key := DateChange(c.files, c.inserted, c.deleted, Get(t.totalLines, repository))]);
      Ok(YearUpdated(MonthUpdated(d, calendar(n), c.inserted, c.deleted), calendar(n), c.inserted, c.deleted))
  }

  /**
   * The `changes_by_date` entry filed under the commit's key carries the commit's
   * counts and the repository's running total after it, which is still the lines
   * added less the lines removed.
   */
  lemma LinesModifiedRunningTotal(a: Accumulated, repository: string, calendar: int -> Calendar, header: string, c: Counts)
    requires Consistent(a) && LinesModified(a, repository, calendar, header, c).Ok?
    ensures var b := LinesModified(a, repository, calendar, header, c).value;
      && Consistent(b)
      && repository in b.totalLinesAdded && repository in b.totalLinesRemoved
      && StampKey(FirstField(header), repository) in b.changesByDate
      && b.changesByDate[StampKey(FirstField(header), repository)] ==
         DateChange(c.files, c.inserted, c.deleted, b.totalLinesAdded[repository] as int - b.totalLinesRemoved[repository] as int)
  {
  }

  /** The author of a header: every field after the first, joined back with spaces. */
  function AuthorOf(header: string): string
  {
    AfterFirstField(header)
  }

  /** The `changes_by_date_by_author[key]` dictionary, or the empty one it starts as. */
  function ByAuthorAt(a: Accumulated, key: string): map<string, AuthorChange>
  {
    if key in a.changesByDateByAuthor then a.changesByDateByAuthor[key] else map[]
  }

  /** `_update_lines_modified_by_author(repository, line)` with the pending counts `c`. */
  function LinesModifiedByAuthor(a: Accumulated, repository: string, header: string, c: Counts): Accumulated
  {
    var key := StampKey(FirstField(header), repository);
    var author := AuthorOf(header);
    var prev := AuthorGet(a, author);
    var keys := AuthorKeys(Some(prev.commits + 1), Some(prev.linesAdded + c.inserted), Some(prev.linesRemoved + c.deleted));
    var entries := ByAuthorAt(a, key);
    var merge := author in entries && entries[author].mergeCommit;
    a.(authorsOfRepository := a.authorsOfRepository[author := keys],
       changesByDateByAuthor := a.changesByDateByAuthor[key := entries[author := AuthorChange(c.inserted, c.deleted, prev.commits + 1, merge)]])
  }

  /**
   * `_update_merge_commit(repository, line)`: one more commit, no lines.  Only
   * an author without a dictionary gets 'lines_added' and 'lines_removed' set
   * to 0; an author already present keeps whichever line keys it had.
   */
  function MergeCommitRecorded(a: Accumulated, repository: string, header: string): Accumulated
  {
    var key := StampKey(FirstField(header), repository);
    var author := AuthorOf(header);
    var prev := if author in a.authorsOfRepository then a.authorsOfRepository[author] else AuthorKeys(Some(0), Some(0), Some(0));
    var commits := OrZero(prev.commits) + 1;
    var entries := ByAuthorAt(a, key);
    a.(authorsOfRepository := a.authorsOfRepository[author := prev.(commits := Some(commits))],
       changesByDateByAuthor := a.changesByDateByAuthor[key := entries[author := AuthorChange(0, 0, commits, true)]])
  }

  /**
   * Which keys the author's dictionary has after a merge commit: 'commits'
   * always; the line keys exactly when it had them or had no dictionary.
   */
  lemma MergeCommitKeys(a: Accumulated, repository: string, header: string)
    ensures var k := MergeCommitRecorded(a, repository, header).authorsOfRepository[AuthorOf(header)];
      var before := KeysOf(a, AuthorOf(header));
      && k.commits == Some(AuthorGet(a, AuthorOf(header)).commits + 1)
      && (AuthorOf(header) in a.authorsOfRepository ==> k.linesAdded == before.linesAdded && k.linesRemoved == before.linesRemoved)
      && (AuthorOf(header) !in a.authorsOfRepository ==> k.linesAdded == Some(0) && k.linesRemoved == Some(0))
  {
  }

  /**
   * `_update_merge_commit` as evidently intended: the line keys are set to 0
   * when missing (`setdefault`), whether or not the author had a dictionary.
   */
  function MergeCommitRecordedFixed(a: Accumulated, repository: string, header: string): Accumulated
  {
    var key := StampKey(FirstField(header), repository);
    var author := AuthorOf(header);
    var prev := AuthorGet(a, author);
    var entries := ByAuthorAt(a, key);
    a.(authorsOfRepository := a.authorsOfRepository[author := AuthorKeys(Some(prev.commits + 1), Some(prev.linesAdded), Some(prev.linesRemoved))],
       changesByDateByAuthor := a.changesByDateByAuthor[key := entries[author := AuthorChange(0, 0, prev.commits + 1, true)]])
  }

  /** The corrected merge commit leaves every key of the author present, with the counts the code as written gives. */
  lemma MergeCommitFixedKeys(a: Accumulated, repository: string, header: string)
    ensures var author := AuthorOf(header);
      var k := MergeCommitRecordedFixed(a, repository, header).authorsOfRepository[author];
      && k.commits.Some? && k.linesAdded.Some? && k.linesRemoved.Some?
      && AuthorGet(MergeCommitRecordedFixed(a, repository, header), author) == AuthorGet(MergeCommitRecorded(a, repository, header), author)
      && MergeCommitRecordedFixed(a, repository, header).changesByDateByAuthor == MergeCommitRecorded(a, repository, header).changesByDateByAuthor
  {
  }

  // ---------------------------------------------------------------------------
  // The two passes

  /** `_collect_lines_modified` or `_collect_lines_modified_by_author`. */
  datatype Pass = LinesPass | AuthorsPass

  /** `_process_in_state` as the constructor leaves it: do_nothing except on entering ChangesByCommit. */
  const BaseTable: Table := map[
    (Initial, Initial) := DoNothing,
    (Initial, CommitInfo) := DoNothing,
    (Initial, ChangesByCommit) := SetChangesByCommit,
    (CommitInfo, Initial) := DoNothing,
    (CommitInfo, CommitInfo) := DoNothing,
    (CommitInfo, ChangesByCommit) := SetChangesByCommit,
    (ChangesByCommit, Initial) := DoNothing,
    (ChangesByCommit, CommitInfo) := DoNothing,
    (ChangesByCommit, ChangesByCommit) := DoNothing]

  /** The table during a pass: the entries each pass registers on top of the constructor's. */
  function TableOf(pass: Pass): Table
  {
    match pass
    case LinesPass => BaseTable[(ChangesByCommit, CommitInfo) := UpdateLinesModified]
    case AuthorsPass =>
      BaseTable[(ChangesByCommit, CommitInfo) := UpdateLinesModifiedByAuthor][(CommitInfo, CommitInfo) := UpdateMergeCommit]
  }

  /** Setting an entry back to do_nothing restores the constructor's table. */
  lemma TablesRestored()
    ensures TableOf(LinesPass)[(ChangesByCommit, CommitInfo) := DoNothing] == BaseTable
    ensures TableOf(AuthorsPass)[(ChangesByCommit, CommitInfo) := DoNothing][(CommitInfo, CommitInfo) := DoNothing] == BaseTable
  {
    var keys := BaseTable.Keys;
    assert forall k :: k in TableOf(LinesPass) <==> k in keys;
    assert forall k :: k in TableOf(AuthorsPass) <==> k in keys;
  }

  /** What a fired event does to the dictionaries in each pass. */
  function ApplyEvent(pass: Pass, a: Accumulated, repository: string, calendar: int -> Calendar, e: Event): Result<Accumulated>
  {
    match e
    case Change(header, c) =>
      if pass == LinesPass then LinesModified(a, repository, calendar, header, c)
      else Ok(LinesModifiedByAuthor(a, repository, header, c))
    case MergeCommit(header) => Ok(MergeCommitRecorded(a, repository, header))
  }

  /** The dictionaries after the events, in the order they fired. */
  function FoldEvents(pass: Pass, a: Accumulated, repository: string, calendar: int -> Calendar, evs: seq<Event>): Result<Accumulated>
    decreases |evs|
  {
    if evs == [] then Ok(a)
    else
      match FoldEvents(pass, a, repository, calendar, evs[..|evs| - 1])
      case Err(e) => Err(e)
      case Ok(b) => ApplyEvent(pass, b, repository, calendar, evs[|evs| - 1])
  }

  lemma FoldSingle(pass: Pass, a: Accumulated, repository: string, calendar: int -> Calendar, e: Event)
    ensures FoldEvents(pass, a, repository, calendar, [e]) == ApplyEvent(pass, a, repository, calendar, e)
  {
    assert [e][..0] == [];
  }

  /** The pass a callback belongs to. */
  function PassOf(cb: Callback): Pass
  {
    if cb == UpdateLinesModified then LinesPass else AuthorsPass
  }

  /** `process_current_state(repository, line)`: the new pending counts and dictionaries. */
  function Process(cb: Callback, pending: Option<Counts>, a: Accumulated, repository: string,
                   calendar: int -> Calendar, line: string): Result<(Option<Counts>, Accumulated)>
  {
    match Fire(cb, pending, line)
    case Err(e) => Err(e)
    case Ok(fired) =>
      match FoldEvents(PassOf(cb), a, repository, calendar, fired.1)
      case Err(e) => Err(e)
      case Ok(b) => Ok((fired.0, b))
  }

  /** An update callback: it raises on a missing diffstat, and otherwise applies one Change. */
  lemma ProcessChange(cb: Callback, pending: Option<Counts>, a: Accumulated, repository: string,
                      calendar: int -> Calendar, line: string)
    requires cb == UpdateLinesModified || cb == UpdateLinesModifiedByAuthor
    ensures pending.None? ==> Process(cb, pending, a, repository, calendar, line).Err?
    ensures pending.Some? ==>
      var r := ApplyEvent(PassOf(cb), a, repository, calendar, Change(line, pending.value));
      && (Process(cb, pending, a, repository, calendar, line).Ok? <==> r.Ok?)
      && (r.Ok? ==> Process(cb, pending, a, repository, calendar, line).value == (pending, r.value))
  {
    if pending.Some? {
      FoldSingle(PassOf(cb), a, repository, calendar, Change(line, pending.value));
    }
  }

  lemma FoldSnoc(pass: Pass, a: Accumulated, repository: string, calendar: int -> Calendar, evs: seq<Event>, e: Event)
    requires FoldEvents(pass, a, repository, calendar, evs).Ok?
    ensures FoldEvents(pass, a, repository, calendar, evs + [e]) ==
      ApplyEvent(pass, FoldEvents(pass, a, repository, calendar, evs).value, repository, calendar, e)
  {
    assert (evs + [e])[..|evs|] == evs;
  }

  /**
   * Where each pass's callbacks sit: an update fires only on the header that
   * ends a diffstat, a merge only between two headers, and only in the pass
   * that registered it.
   */
  lemma PassCallbacks(pass: Pass, from: State, to: State)
    ensures var cb := Lookup(TableOf(pass), from, to);
      && (cb == UpdateLinesModified <==> pass == LinesPass && from == ChangesByCommit && to == CommitInfo)
      && (cb == UpdateLinesModifiedByAuthor <==> pass == AuthorsPass && from == ChangesByCommit && to == CommitInfo)
      && (cb == UpdateMergeCommit <==> pass == AuthorsPass && from == CommitInfo && to == CommitInfo)
      && (cb == SetChangesByCommit <==> to == ChangesByCommit && from != ChangesByCommit)
  {
  }

  /**
   * One line of a pass: if the machine and the dictionaries agree with Run
   * and FoldEvents before it, the callback `toggle` selects leaves them in
   * agreement after it, and raises exactly when Run does.
   */
  lemma PassStep(pass: Pass, p0: Option<Counts>, a0: Accumulated, repository: string, calendar: int -> Calendar,
                 lines: seq<string>, line: string, a: Accumulated, next: State)
    requires Run(TableOf(pass), p0, lines).Ok?
    requires FoldEvents(pass, a0, repository, calendar, Run(TableOf(pass), p0, lines).value.events) == Ok(a)
    requires Decide(Run(TableOf(pass), p0, lines).value.machine.state, line) == Ok(next)
    ensures var t := Run(TableOf(pass), p0, lines).value;
      var r := Process(Lookup(TableOf(pass), t.machine.state, next), t.machine.pending, a, repository, calendar, line);
      var u := Run(TableOf(pass), p0, lines + [line]);
      && (r.Err? ==> u.Err?)
      && (r.Ok? ==> && u.Ok? && u.value.machine == Machine(next, r.value.0)
                    && FoldEvents(pass, a0, repository, calendar, u.value.events) == Ok(r.value.1))
  {
    var table := TableOf(pass);
    var t := Run(table, p0, lines).value;
    var cb := Lookup(table, t.machine.state, next);
    RunSnoc(table, p0, lines, line);
    PassCallbacks(pass, t.machine.state, next);
    DecideCases(t.machine.state, line);
    match Fire(cb, t.machine.pending, line)
    case Err(_) =>
    case Ok(fired) =>
      AdvanceBy(table, t, line, next, fired);
      if fired.1 == [] {
        assert t.events + [] == t.events;
      } else {
        var e := fired.1[0];
        assert fired.1 == [e];
        FoldSingle(PassOf(cb), a, repository, calendar, e);
        FoldSnoc(pass, a0, repository, calendar, t.events, e);
      }
  }

  // ---------------------------------------------------------------------------
  // What a pass accumulates

  /** The lines the diffstats of the events add. */
  function Inserted(evs: seq<Event>): nat
    decreases |evs|
  {
    if evs == [] then 0
    else Inserted(evs[..|evs| - 1]) + (if evs[|evs| - 1].Change? then evs[|evs| - 1].counts.inserted else 0)
  }

  /** The lines the diffstats of the events remove. */
  function Deleted(evs: seq<Event>): nat
    decreases |evs|
  {
    if evs == [] then 0
    else Deleted(evs[..|evs| - 1]) + (if evs[|evs| - 1].Change? then evs[|evs| - 1].counts.deleted else 0)
  }

  /** Every pass keeps `total_lines == total_lines_added - total_lines_removed`. */
  lemma {:induction false} FoldKeepsConsistent(pass: Pass, a: Accumulated, repository: string, calendar: int -> Calendar, evs: seq<Event>)
    requires Consistent(a)
    requires FoldEvents(pass, a, repository, calendar, evs).Ok?
    ensures Consistent(FoldEvents(pass, a, repository, calendar, evs).value)
    decreases |evs|
  {
    if evs != [] {
      var init := evs[..|evs| - 1];
      FoldKeepsConsistent(pass, a, repository, calendar, init);
    }
  }

  /**
   * The lines pass adds every diffstat's insertions and deletions to the
   * repository's totals, and leaves the other repositories' totals alone.
   */
  lemma {:induction false} FoldLineTotals(a: Accumulated, repository: string, calendar: int -> Calendar, evs: seq<Event>)
    requires FoldEvents(LinesPass, a, repository, calendar, evs).Ok?
    ensures var b := FoldEvents(LinesPass, a, repository, calendar, evs).value;
      && GetNat(b.totalLinesAdded, repository) == GetNat(a.totalLinesAdded, repository) + Inserted(evs)
      && GetNat(b.totalLinesRemoved, repository) == GetNat(a.totalLinesRemoved, repository) + Deleted(evs)
      && Get(b.totalLines, repository) == Get(a.totalLines, repository) + Inserted(evs) - Deleted(evs)
      && forall r :: r != repository ==> GetNat(b.totalLinesAdded, r) == GetNat(a.totalLinesAdded, r)
    decreases |evs|
  {
    if evs != [] {
      var init := evs[..|evs| - 1];
      FoldLineTotals(a, repository, calendar, init);
    }
  }

  /** The lines pass never raises on events whose diffstats belong to commit headers. */
  lemma {:induction false} FoldLinesOk(a: Accumulated, repository: string, calendar: int -> Calendar, evs: seq<Event>)
    requires OnHeaders(evs)
    ensures FoldEvents(LinesPass, a, repository, calendar, evs).Ok?
    decreases |evs|
  {
    if evs != [] {
      var init := evs[..|evs| - 1];
      assert forall i :: 0 <= i < |init| ==> init[i] == evs[i];
      FoldLinesOk(a, repository, calendar, init);
      assert IsStampLine(evs[|evs| - 1].header);
    }
  }

  /** The commits the events record for `author`, merges included. */
  function CommitsBy(evs: seq<Event>, author: string): nat
    decreases |evs|
  {
    if evs == [] then 0
    else CommitsBy(evs[..|evs| - 1], author) + (if AuthorOf(evs[|evs| - 1].header) == author then 1 else 0)
  }

  /** The lines the events add for `author`. */
  function InsertedBy(evs: seq<Event>, author: string): nat
    decreases |evs|
  {
    if evs == [] then 0
    else
      var e := evs[|evs| - 1];
      InsertedBy(evs[..|evs| - 1], author) + (if e.Change? && AuthorOf(e.header) == author then e.counts.inserted else 0)
  }

  /** The lines the events remove for `author`. */
  function DeletedBy(evs: seq<Event>, author: string): nat
    decreases |evs|
  {
    if evs == [] then 0
    else
      var e := evs[|evs| - 1];
      DeletedBy(evs[..|evs| - 1], author) + (if e.Change? && AuthorOf(e.header) == author then e.counts.deleted else 0)
  }

  /**
   * The author pass never raises, and each author's counters grow by one per
   * commit of theirs and by the lines of their diffstats; a merge adds a
   * commit and no lines.
   */
  lemma {:induction false} FoldAuthorCounts(a: Accumulated, repository: string, calendar: int -> Calendar, evs: seq<Event>, author: string)
    ensures FoldEvents(AuthorsPass, a, repository, calendar, evs).Ok?
    ensures var b := FoldEvents(AuthorsPass, a, repository, calendar, evs).value;
      AuthorGet(b, author) == AuthorCounts(AuthorGet(a, author).linesAdded + InsertedBy(evs, author),
                                           AuthorGet(a, author).linesRemoved + DeletedBy(evs, author),
                                           AuthorGet(a, author).commits + CommitsBy(evs, author))
    decreases |evs|
  {
    if evs != [] {
      var init := evs[..|evs| - 1];
      FoldAuthorCounts(a, repository, calendar, init, author);
      var b := FoldEvents(AuthorsPass, a, repository, calendar, init).value;
      var e := evs[|evs| - 1];
      AuthorEventCounts(b, repository, calendar, e, author);
      assert FoldEvents(AuthorsPass, a, repository, calendar, evs) == ApplyEvent(AuthorsPass, b, repository, calendar, e);
      assert CommitsBy(evs, author) == CommitsBy(init, author) + (if AuthorOf(e.header) == author then 1 else 0);
      assert InsertedBy(evs, author) == InsertedBy(init, author) + (if e.Change? && AuthorOf(e.header) == author then e.counts.inserted else 0);
      assert DeletedBy(evs, author) == DeletedBy(init, author) + (if e.Change? && AuthorOf(e.header) == author then e.counts.deleted else 0);
    }
  }

  /** One event of the author pass: it never raises and moves only its own author's counters. */
  lemma AuthorEventCounts(b: Accumulated, repository: string, calendar: int -> Calendar, e: Event, author: string)
    ensures ApplyEvent(AuthorsPass, b, repository, calendar, e).Ok?
    ensures var mine := AuthorOf(e.header) == author;
      AuthorGet(ApplyEvent(AuthorsPass, b, repository, calendar, e).value, author) ==
      AuthorCounts(AuthorGet(b, author).linesAdded + (if e.Change? && mine then e.counts.inserted else 0),
                   AuthorGet(b, author).linesRemoved + (if e.Change? && mine then e.counts.deleted else 0),
                   AuthorGet(b, author).commits + (if mine then 1 else 0))
  {
  }

  /** The diffstat-carrying commits of `author` among the events. */
  function ChangesBy(evs: seq<Event>, author: string): nat
    decreases |evs|
  {
    if evs == [] then 0
    else
      var e := evs[|evs| - 1];
      ChangesBy(evs[..|evs| - 1], author) + (if e.Change? && AuthorOf(e.header) == author then 1 else 0)
  }

  /** The author's line keys are present. */
  predicate HasLineKeys(k: AuthorKeys)
  {
    k.linesAdded.Some? && k.linesRemoved.Some?
  }

  /**
   * Which keys the author pass leaves in an author's dictionary: the author is
   * present once any commit of theirs was seen, 'commits' with it, and the line
   * keys when they were there before, when a commit with a diffstat was seen,
   * or when the author had no dictionary when their first commit came.  So an
   * author that `_collect_commits_graph` recorded first and whose commits are
   * all merges keeps no line keys.
   */
  lemma {:induction false} FoldAuthorKeys(a: Accumulated, repository: string, calendar: int -> Calendar, evs: seq<Event>, author: string)
    requires HasLineKeys(KeysOf(a, author)) || (KeysOf(a, author).linesAdded.None? && KeysOf(a, author).linesRemoved.None?)
    ensures FoldEvents(AuthorsPass, a, repository, calendar, evs).Ok?
    ensures var b := FoldEvents(AuthorsPass, a, repository, calendar, evs).value;
      var k := KeysOf(b, author);
      && (author in b.authorsOfRepository <==> author in a.authorsOfRepository || CommitsBy(evs, author) > 0)
      && (k.commits.Some? <==> KeysOf(a, author).commits.Some? || CommitsBy(evs, author) > 0)
      && (HasLineKeys(k) <==>
            HasLineKeys(KeysOf(a, author)) || ChangesBy(evs, author) > 0
            || (author !in a.authorsOfRepository && CommitsBy(evs, author) > 0))
      && (HasLineKeys(k) || (k.linesAdded.None? && k.linesRemoved.None?))
    decreases |evs|
  {
    if evs != [] {
      var init := evs[..|evs| - 1];
      FoldAuthorKeys(a, repository, calendar, init, author);
      var b := FoldEvents(AuthorsPass, a, repository, calendar, init).value;
      var e := evs[|evs| - 1];
      AuthorEventKeys(b, repository, calendar, e, author);
      assert FoldEvents(AuthorsPass, a, repository, calendar, evs) == ApplyEvent(AuthorsPass, b, repository, calendar, e);
      assert CommitsBy(evs, author) == CommitsBy(init, author) + (if AuthorOf(e.header) == author then 1 else 0);
      assert ChangesBy(evs, author) == ChangesBy(init, author) + (if e.Change? && AuthorOf(e.header) == author then 1 else 0);
    }
  }

  /** One event of the author pass: which keys its author's dictionary has afterwards. */
  lemma AuthorEventKeys(b: Accumulated, repository: string, calendar: int -> Calendar, e: Event, author: string)
    requires HasLineKeys(KeysOf(b, author)) || (KeysOf(b, author).linesAdded.None? && KeysOf(b, author).linesRemoved.None?)
    ensures ApplyEvent(AuthorsPass, b, repository, calendar, e).Ok?
    ensures var k := KeysOf(ApplyEvent(AuthorsPass, b, repository, calendar, e).value, author);
      var mine := AuthorOf(e.header) == author;
      && (author in ApplyEvent(AuthorsPass, b, repository, calendar, e).value.authorsOfRepository <==> author in b.authorsOfRepository || mine)
      && (k.commits.Some? <==> KeysOf(b, author).commits.Some? || mine)
      && (HasLineKeys(k) <==> HasLineKeys(KeysOf(b, author)) || (mine && e.Change?) || (mine && author !in b.authorsOfRepository))
      && (HasLineKeys(k) || (k.linesAdded.None? && k.linesRemoved.None?))
  {
    if e.MergeCommit? {
      MergeCommitKeys(b, repository, e.header);
    }
  }

  /**
   * An author already present without count keys whose commits among the
   * events all show no diffstat ends the pass with 'commits' only.
   */
  lemma FoldMergeOnlyKeys(a: Accumulated, repository: string, calendar: int -> Calendar, evs: seq<Event>, author: string)
    requires author in a.authorsOfRepository && a.authorsOfRepository[author] == NoKeys
    requires CommitsBy(evs, author) > 0 && ChangesBy(evs, author) == 0
    ensures FoldEvents(AuthorsPass, a, repository, calendar, evs).Ok?
    ensures var b := FoldEvents(AuthorsPass, a, repository, calendar, evs).value;
      author in b.authorsOfRepository && b.authorsOfRepository[author] == AuthorKeys(Some(CommitsBy(evs, author)), None, None)
  {
    FoldAuthorKeys(a, repository, calendar, evs, author);
    FoldAuthorCounts(a, repository, calendar, evs, author);
    var b := FoldEvents(AuthorsPass, a, repository, calendar, evs).value;
    var k := KeysOf(b, author);
    assert k.commits.Some? && k.linesAdded.None? && k.linesRemoved.None?;
    assert k.commits.value == AuthorGet(b, author).commits == CommitsBy(evs, author);
  }

  // ---------------------------------------------------------------------------
  // Both passes over a well-formed log

  predicate WellFormedLog(cs: seq<LogCommit>)
  {
    |cs| >= 1 && forall i :: 0 <= i < |cs| ==> WellFormedCommit(cs[i])
  }

  lemma WellFormedTail(cs: seq<LogCommit>)
    requires WellFormedLog(cs) && |cs| > 1
    ensures WellFormedLog(cs[1..]) && WellFormedCommit(cs[0])
  {
    assert forall i :: 0 <= i < |cs| - 1 ==> cs[1..][i] == cs[i + 1];
  }

  /** The insertions of every diffstat in the log. */
  function TotalInserted(cs: seq<LogCommit>): nat
    requires WellFormedLog(cs)
    decreases |cs|
  {
    assert WellFormedCommit(cs[0]);
    var mine := if cs[0].stat.Some? then StatCounts(cs[0]).inserted else 0;
    if |cs| == 1 then mine
    else
      WellFormedTail(cs);
      mine + TotalInserted(cs[1..])
  }

  /** The deletions of every diffstat in the log. */
  function TotalDeleted(cs: seq<LogCommit>): nat
    requires WellFormedLog(cs)
    decreases |cs|
  {
    assert WellFormedCommit(cs[0]);
    var mine := if cs[0].stat.Some? then StatCounts(cs[0]).deleted else 0;
    if |cs| == 1 then mine
    else
      WellFormedTail(cs);
      mine + TotalDeleted(cs[1..])
  }

  /** The commits of `author` in the log. */
  function HeadersBy(cs: seq<LogCommit>, author: string): nat
    decreases |cs|
  {
    if cs == [] then 0
    else (if AuthorOf(cs[0].header) == author then 1 else 0) + HeadersBy(cs[1..], author)
  }

  /**
   * 1 when the oldest commit of the log is `author`'s and shows no diffstat:
   * the replay enters CommitInfo from Initial on it and fires nothing.
   */
  function Uncounted(cs: seq<LogCommit>, author: string): nat
    requires |cs| >= 1
  {
    var oldest := cs[|cs| - 1];
    if oldest.stat.None? && AuthorOf(oldest.header) == author then 1 else 0
  }

  /** Adding one event at the end: the sums grow by its counts. */
  lemma SumsSnoc(evs: seq<Event>, mine: seq<Event>, author: string)
    requires |mine| <= 1
    ensures Inserted(evs + mine) == Inserted(evs) + Inserted(mine)
    ensures Deleted(evs + mine) == Deleted(evs) + Deleted(mine)
    ensures CommitsBy(evs + mine, author) == CommitsBy(evs, author) + CommitsBy(mine, author)
  {
    if mine == [] {
      assert evs + mine == evs;
    } else {
      assert (evs + mine)[..|evs|] == evs;
      assert mine[..0] == [];
    }
  }

  /** ExpectedEvents of several commits: the older commits' events, then the newest's. */
  lemma ExpectedEventsUnfold(cs: seq<LogCommit>, merges: bool)
    requires WellFormedLog(cs)
    ensures WellFormedCommit(cs[0])
    ensures |cs| == 1 ==> ExpectedEvents(cs, merges) == NewestEvents(cs, merges)
    ensures |cs| > 1 ==>
      && WellFormedLog(cs[1..])
      && ExpectedEvents(cs, merges) == ExpectedEvents(cs[1..], merges) + NewestEvents(cs, merges)
  {
    assert WellFormedCommit(cs[0]);
    if |cs| > 1 {
      WellFormedTail(cs);
    }
  }

  /** Every event fires on a commit header. */
  predicate OnHeaders(evs: seq<Event>)
  {
    forall i :: 0 <= i < |evs| ==> IsStampLine(evs[i].header)
  }

  lemma OnHeadersConcat(a: seq<Event>, b: seq<Event>)
    requires OnHeaders(a) && OnHeaders(b)
    ensures OnHeaders(a + b)
  {
    assert forall i :: 0 <= i < |a| ==> (a + b)[i] == a[i];
    assert forall i :: |a| <= i < |a + b| ==> (a + b)[i] == b[i - |a|];
  }

  /** Every event of a well-formed log fires on a commit header. */
  lemma {:induction false} ExpectedEventsHeaders(cs: seq<LogCommit>, merges: bool)
    requires WellFormedLog(cs)
    ensures OnHeaders(ExpectedEvents(cs, merges))
    decreases |cs|
  {
    ExpectedEventsUnfold(cs, merges);
    var mine := NewestEvents(cs, merges);
    assert OnHeaders(mine);
    if |cs| > 1 {
      ExpectedEventsHeaders(cs[1..], merges);
      OnHeadersConcat(ExpectedEvents(cs[1..], merges), mine);
    }
  }

  /** What the newest commit's header adds to the sums. */
  lemma NewestSums(cs: seq<LogCommit>, merges: bool, author: string)
    requires WellFormedLog(cs)
    ensures WellFormedCommit(cs[0])
    ensures Inserted(NewestEvents(cs, merges)) == if cs[0].stat.Some? then StatCounts(cs[0]).inserted else 0
    ensures Deleted(NewestEvents(cs, merges)) == if cs[0].stat.Some? then StatCounts(cs[0]).deleted else 0
    ensures CommitsBy(NewestEvents(cs, merges), author) ==
      if (cs[0].stat.Some? || (merges && |cs| > 1)) && AuthorOf(cs[0].header) == author then 1 else 0
  {
    assert WellFormedCommit(cs[0]);
    var mine := NewestEvents(cs, merges);
    if mine != [] {
      assert mine[..0] == [];
    }
  }

  lemma TotalsUnfold(cs: seq<LogCommit>)
    requires WellFormedLog(cs) && |cs| > 1
    ensures WellFormedCommit(cs[0]) && WellFormedLog(cs[1..])
    ensures TotalInserted(cs) == (if cs[0].stat.Some? then StatCounts(cs[0]).inserted else 0) + TotalInserted(cs[1..])
    ensures TotalDeleted(cs) == (if cs[0].stat.Some? then StatCounts(cs[0]).deleted else 0) + TotalDeleted(cs[1..])
  {
    WellFormedTail(cs);
  }

  /** The events of a well-formed log add up to the log's diffstats. */
  lemma {:induction false} ExpectedEventsLines(cs: seq<LogCommit>, merges: bool)
    requires WellFormedLog(cs)
    ensures Inserted(ExpectedEvents(cs, merges)) == TotalInserted(cs)
    ensures Deleted(ExpectedEvents(cs, merges)) == TotalDeleted(cs)
    decreases |cs|
  {
    ExpectedEventsUnfold(cs, merges);
    NewestSums(cs, merges, "");
    var mine := NewestEvents(cs, merges);
    if |cs| == 1 {
      assert TotalInserted(cs) == (if cs[0].stat.Some? then StatCounts(cs[0]).inserted else 0);
      assert TotalDeleted(cs) == (if cs[0].stat.Some? then StatCounts(cs[0]).deleted else 0);
    } else {
      TotalsUnfold(cs);
      ExpectedEventsLines(cs[1..], merges);
      SumsSnoc(ExpectedEvents(cs[1..], merges), mine, "");
    }
  }

  /**
   * When merges are counted, the events record every commit of the log but
   * the oldest one when that one shows no diffstat.
   */
  lemma {:induction false} ExpectedEventsCommits(cs: seq<LogCommit>, author: string)
    requires WellFormedLog(cs)
    ensures CommitsBy(ExpectedEvents(cs, true), author) + Uncounted(cs, author) == HeadersBy(cs, author)
    decreases |cs|
  {
    if |cs| == 1 {
      CommitsOfOldest(cs, author);
    } else {
      WellFormedTail(cs);
      ExpectedEventsCommits(cs[1..], author);
      CommitsOfNewer(cs, author);
    }
  }

  lemma CommitsOfOldest(cs: seq<LogCommit>, author: string)
    requires WellFormedLog(cs) && |cs| == 1
    ensures CommitsBy(ExpectedEvents(cs, true), author) + Uncounted(cs, author) == HeadersBy(cs, author)
  {
    ExpectedEventsUnfold(cs, true);
    NewestSums(cs, true, author);
    assert HeadersBy(cs[1..], author) == 0;
  }

  lemma CommitsOfNewer(cs: seq<LogCommit>, author: string)
    requires WellFormedLog(cs) && |cs| > 1 && WellFormedLog(cs[1..])
    requires CommitsBy(ExpectedEvents(cs[1..], true), author) + Uncounted(cs[1..], author) == HeadersBy(cs[1..], author)
    ensures CommitsBy(ExpectedEvents(cs, true), author) + Uncounted(cs, author) == HeadersBy(cs, author)
  {
    ExpectedEventsUnfold(cs, true);
    NewestSums(cs, true, author);
    var rest := cs[1..];
    assert rest[|rest| - 1] == cs[|cs| - 1];
    SumsSnoc(ExpectedEvents(rest, true), NewestEvents(cs, true), author);
  }

  /**
   * `_collect_lines_modified` over the log git writes: the pass raises
   * nothing, and the repository's added and removed totals grow by every
   * commit's own diffstat.
   */
  lemma LinesPassOfRenderedLog(cs: seq<LogCommit>, p0: Option<Counts>, a: Accumulated, repository: string, calendar: int -> Calendar)
    requires WellFormedLog(cs)
    ensures var run := Run(TableOf(LinesPass), p0, Reversed(RenderLog(cs)));
      && run.Ok?
      && FoldEvents(LinesPass, a, repository, calendar, run.value.events).Ok?
      && var b := FoldEvents(LinesPass, a, repository, calendar, run.value.events).value;
         && GetNat(b.totalLinesAdded, repository) == GetNat(a.totalLinesAdded, repository) + TotalInserted(cs)
         && GetNat(b.totalLinesRemoved, repository) == GetNat(a.totalLinesRemoved, repository) + TotalDeleted(cs)
  {
    var table := TableOf(LinesPass);
    assert PassTable(table);
    RunRenderedLog(table, p0, cs);
    assert Lookup(table, CommitInfo, CommitInfo) != UpdateMergeCommit;
    var evs := ExpectedEvents(cs, false);
    ExpectedEventsHeaders(cs, false);
    ExpectedEventsLines(cs, false);
    FoldLinesOk(a, repository, calendar, evs);
    FoldLineTotals(a, repository, calendar, evs);
  }

  /**
   * `_collect_lines_modified_by_author` over the log git writes: the pass
   * raises nothing, and every author's commit count grows by their commits
   * in the log, except the oldest commit when it shows no diffstat.
   */
  lemma AuthorsPassOfRenderedLog(cs: seq<LogCommit>, p0: Option<Counts>, a: Accumulated, repository: string,
                                 calendar: int -> Calendar, author: string)
    requires WellFormedLog(cs)
    ensures var run := Run(TableOf(AuthorsPass), p0, Reversed(RenderLog(cs)));
      && run.Ok?
      && FoldEvents(AuthorsPass, a, repository, calendar, run.value.events).Ok?
      && var b := FoldEvents(AuthorsPass, a, repository, calendar, run.value.events).value;
         AuthorGet(b, author).commits + Uncounted(cs, author)
         == AuthorGet(a, author).commits + HeadersBy(cs, author)
  {
    var table := TableOf(AuthorsPass);
    assert PassTable(table);
    RunRenderedLog(table, p0, cs);
    assert Lookup(table, CommitInfo, CommitInfo) == UpdateMergeCommit;
    var evs := ExpectedEvents(cs, true);
    ExpectedEventsCommits(cs, author);
    FoldAuthorCounts(a, repository, calendar, evs, author);
  }

  // ---------------------------------------------------------------------------
  // The object

  class LogShortStatData {
    var currentState: State
    var processInState: Table
    var processCurrentState: Callback
    var changesByCommit: Option<Counts>

    var totalLines: map<string, int>
    var totalLinesAdded: map<string, nat>
    var totalLinesRemoved: map<string, nat>
    var changesByDate: map<string, DateChange>
    var linesAddedByMonth: map<string, nat>
    var linesRemovedByMonth: map<string, nat>
    var linesAddedByYear: map<int, nat>
    var linesRemovedByYear: map<int, nat>
    var changesByDateByAuthor: map<string, map<string, AuthorChange>>
    var authorsOfRepository: map<string, AuthorKeys>

    function Accumulators(): Accumulated
      reads this`totalLines, this`totalLinesAdded, this`totalLinesRemoved, this`changesByDate,
            this`linesAddedByMonth, this`linesRemovedByMonth, this`linesAddedByYear, this`linesRemovedByYear,
            this`changesByDateByAuthor, this`authorsOfRepository
    {
      Accumulated(totalLines, totalLinesAdded, totalLinesRemoved, changesByDate,
                  linesAddedByMonth, linesRemovedByMonth, linesAddedByYear, linesRemovedByYear,
                  changesByDateByAuthor, authorsOfRepository)
    }

    /** Between passes: the constructor's table, and totals that agree with the added and removed lines. */
    predicate Valid()
      reads this
    {
      processInState == BaseTable && Consistent(Accumulators())
    }

    /** The parser and callback fields are as they were. */
    twostate predicate MachineKept()
      reads this
    {
      && currentState == old(currentState)
      && processInState == old(processInState)
      && processCurrentState == old(processCurrentState)
    }

    constructor ()
      ensures Valid()
      ensures currentState == Initial && processCurrentState == DoNothing && changesByCommit == None
      ensures Accumulators() == Empty
    {
      currentState := Initial;
      processInState := BaseTable;
      processCurrentState := DoNothing;
      changesByCommit := None;
      totalLines, totalLinesAdded, totalLinesRemoved := map[], map[], map[];
      changesByDate := map[];
      linesAddedByMonth, linesRemovedByMonth := map[], map[];
      linesAddedByYear, linesRemovedByYear := map[], map[];
      changesByDateByAuthor := map[];
      authorsOfRepository := map[];
    }

    /** `toggle`: take the callback of (current state, target), then move to the target. */
    method Toggle(target: State)
      modifies this
      ensures processCurrentState == Lookup(processInState, old(currentState), target)
      ensures currentState == target
      ensures processInState == old(processInState) && changesByCommit == old(changesByCommit)
      ensures Accumulators() == old(Accumulators())
    {
      processCurrentState := Lookup(processInState, currentState, target);
      currentState := target;
    }

    /** `decide(line)`: the decide of the current state; on LogShortStatParserError nothing changes. */
    method Decide(line: string) returns (err: Option<Error>)
      modifies this
      ensures ShortStat.Decide(old(currentState), line).Err? ==>
        err == Some(ShortStat.Decide(old(currentState), line).error) && unchanged(this)
      ensures ShortStat.Decide(old(currentState), line).Ok? ==>
        && err.None?
        && currentState == ShortStat.Decide(old(currentState), line).value
        && processCurrentState == Lookup(processInState, old(currentState), currentState)
      ensures processInState == old(processInState) && changesByCommit == old(changesByCommit)
      ensures Accumulators() == old(Accumulators())
    {
      match ShortStat.Decide(currentState, line)
      case Err(e) =>
        err := Some(e);
      case Ok(next) =>
        Toggle(next);
        err := None;
    }

    /** `_set_changes_by_commit`. */
    method StoreChangesByCommit(line: string) returns (err: Option<Error>)
      modifies this
      ensures ModifiedCounts(line).Err? ==> err.Some? && changesByCommit == old(changesByCommit)
      ensures ModifiedCounts(line).Ok? ==> err.None? && changesByCommit == Some(ModifiedCounts(line).value)
      ensures MachineKept() && Accumulators() == old(Accumulators())
    {
      match ModifiedCounts(line)
      case Err(e) =>
        err := Some(e);
      case Ok(c) =>
        changesByCommit := Some(c);
        err := None;
    }

    /** `_update_total_lines`. */
    method UpdateTotalLines(repository: string, inserted: nat, deleted: nat)
      modifies this`totalLines, this`totalLinesAdded, this`totalLinesRemoved
      ensures Accumulators() == TotalLinesUpdated(old(Accumulators()), repository, inserted, deleted)
      ensures MachineKept() && changesByCommit == old(changesByCommit)
    {
      ghost var a := Accumulators();
      var lines, added, removed := totalLines, totalLinesAdded, totalLinesRemoved;
      TotalLinesUpdatedOf(a, repository, inserted, deleted, lines, added, removed);
      var before := lines;
      lines := lines[repository := Get(lines, repository) + inserted];
      lines := lines[repository := lines[repository] - deleted];
      assert lines == before[repository := Get(before, repository) + inserted - deleted];
      added := added[repository := GetNat(added, repository) + inserted];
      removed := removed[repository := GetNat(removed, repository) + deleted];
      totalLines, totalLinesAdded, totalLinesRemoved := lines, added, removed;
    }

    /** `_update_lines_modified_by_month`. */
    method UpdateLinesModifiedByMonth(date: Calendar, inserted: nat, deleted: nat)
      modifies this`linesAddedByMonth, this`linesRemovedByMonth
      ensures Accumulators() == MonthUpdated(old(Accumulators()), date, inserted, deleted)
      ensures MachineKept() && changesByCommit == old(changesByCommit)
    {
      var yymm := date.yearMonth;
      linesAddedByMonth, linesRemovedByMonth :=
        linesAddedByMonth[yymm := GetNat(linesAddedByMonth, yymm) + inserted],
        linesRemovedByMonth[yymm := GetNat(linesRemovedByMonth, yymm) + deleted];
    }

    /** `_update_lines_modified_by_year`. */
    method UpdateLinesModifiedByYear(date: Calendar, inserted: nat, deleted: nat)
      modifies this`linesAddedByYear, this`linesRemovedByYear
      ensures Accumulators() == YearUpdated(old(Accumulators()), date, inserted, deleted)
      ensures MachineKept() && changesByCommit == old(changesByCommit)
    {
      var year := date.year;
      linesAddedByYear, linesRemovedByYear :=
        linesAddedByYear[year := GetNat(linesAddedByYear, year) + inserted],
        linesRemovedByYear[year := GetNat(linesRemovedByYear, year) + deleted];
    }

    /**
     * `_update_lines_modified`: `int(stamp)` raises on a non-number, and
     * unpacking a missing `_changes_by_commit` raises; nothing changes then.
     */
    method RecordLinesModified(repository: string, line: string, calendar: int -> Calendar) returns (err: Option<Error>)
      modifies this`totalLines, this`totalLinesAdded, this`totalLinesRemoved, this`changesByDate,
               this`linesAddedByMonth, this`linesRemovedByMonth, this`linesAddedByYear, this`linesRemovedByYear
      ensures (ParseInt(FirstField(line)).None? || old(changesByCommit).None?) ==>
        err.Some? && Accumulators() == old(Accumulators())
      ensures ParseInt(FirstField(line)).Some? && old(changesByCommit).Some? ==>
        err.None? &&
        Ok(Accumulators()) == LinesModified(old(Accumulators()), repository, calendar, line, old(changesByCommit).value)
      ensures MachineKept() && changesByCommit == old(changesByCommit)
    {
      var stamp := FirstField(line);
      var n := ParseInt(stamp);
      if n.None? {
        return Some(ValueError(stamp));
      }
      var date := calendar(n.value);
      var stampKey := StampKey(stamp, repository);
      if changesByCommit.None? {
        return Some(TypeError("cannot unpack None"));
      }
      var c := changesByCommit.value;
      UpdateTotalLines(repository, c.inserted, c.deleted);
      changesByDate := changesByDate[stampKey := DateChange(c.files, c.inserted, c.deleted, Get(totalLines, repository))];
      UpdateLinesModifiedByMonth(date, c.inserted, c.deleted);
      UpdateLinesModifiedByYear(date, c.inserted, c.deleted);
      err := None;
    }

    /** `_update_lines_modified_by_author`: unpacking a missing `_changes_by_commit` raises. */
    method RecordLinesModifiedByAuthor(repository: string, line: string) returns (err: Option<Error>)
      modifies this`authorsOfRepository, this`changesByDateByAuthor
      ensures old(changesByCommit).None? ==> err.Some? && Accumulators() == old(Accumulators())
      ensures old(changesByCommit).Some? ==>
        err.None? && Accumulators() == LinesModifiedByAuthor(old(Accumulators()), repository, line, old(changesByCommit).value)
      ensures MachineKept() && changesByCommit == old(changesByCommit)
    {
      var stamp := FirstField(line);
      var stampKey := StampKey(stamp, repository);
      var author := AfterFirstField(line);
      if changesByCommit.None? {
        return Some(TypeError("cannot unpack None"));
      }
      var c := changesByCommit.value;
      ghost var b := LinesModifiedByAuthor(Accumulators(), repository, line, c);
      var authors, dates := authorsOfRepository, changesByDateByAuthor;
      if author !in authors {
        authors := authors[author := AuthorKeys(Some(0), Some(0), Some(0))];
      }
      var keys := authors[author];
      keys := keys.(commits := Some(OrZero(keys.commits) + 1));
      keys := keys.(linesAdded := Some(OrZero(keys.linesAdded) + c.inserted));
      keys := keys.(linesRemoved := Some(OrZero(keys.linesRemoved) + c.deleted));
      authors := authors[author := keys];
      if stampKey !in dates {
        dates := dates[stampKey := map[]];
      }
      var entries := dates[stampKey];
      var merge := author in entries && entries[author].mergeCommit;
      entries := entries[author := AuthorChange(c.inserted, c.deleted, keys.commits.value, merge)];
      dates := dates[stampKey := entries];
      assert authors == authorsOfRepository[author := keys];
      assert dates == changesByDateByAuthor[stampKey := entries];
      assert authors == b.authorsOfRepository && dates == b.changesByDateByAuthor;
      authorsOfRepository, changesByDateByAuthor := authors, dates;
      err := None;
    }

    /** `_update_merge_commit`. */
    method RecordMergeCommit(repository: string, line: string)
      modifies this`authorsOfRepository, this`changesByDateByAuthor
      ensures Accumulators() == MergeCommitRecorded(old(Accumulators()), repository, line)
      ensures MachineKept() && changesByCommit == old(changesByCommit)
    {
      var stamp := FirstField(line);
      var stampKey := StampKey(stamp, repository);
      var author := AfterFirstField(line);
      var authors, dates := authorsOfRepository, changesByDateByAuthor;
      if author !in authors {
        authors := authors[author := AuthorKeys(Some(0), Some(0), Some(0))];
      }
      var keys := authors[author];
      keys := keys.(commits := Some(OrZero(keys.commits) + 1));
      authors := authors[author := keys];
      if stampKey !in dates {
        dates := dates[stampKey := map[]];
      }
      var entries := dates[stampKey];
      entries := entries[author := AuthorChange(0, 0, keys.commits.value, true)];
      dates := dates[stampKey := entries];
      assert authors == authorsOfRepository[author := keys];
      assert dates == changesByDateByAuthor[stampKey := entries];
      authorsOfRepository, changesByDateByAuthor := authors, dates;
    }

    /** `process_current_state(repository, line)`: run the callback `toggle` selected. */
    method ProcessCurrentState(repository: string, line: string, calendar: int -> Calendar) returns (err: Option<Error>)
      modifies this
      ensures var r := Process(old(processCurrentState), old(changesByCommit), old(Accumulators()), repository, calendar, line);
        && (err.None? <==> r.Ok?)
        && (r.Ok? ==> changesByCommit == r.value.0 && Accumulators() == r.value.1)
      ensures MachineKept()
    {
      ghost var a, p := Accumulators(), changesByCommit;
      match processCurrentState
      case DoNothing =>
        err := None;
      case SetChangesByCommit =>
        err := StoreChangesByCommit(line);
      case UpdateLinesModified =>
        ProcessChange(UpdateLinesModified, p, a, repository, calendar, line);
        err := RecordLinesModified(repository, line, calendar);
      case UpdateLinesModifiedByAuthor =>
        ProcessChange(UpdateLinesModifiedByAuthor, p, a, repository, calendar, line);
        err := RecordLinesModifiedByAuthor(repository, line);
      case UpdateMergeCommit =>
        FoldSingle(AuthorsPass, a, repository, calendar, MergeCommit(line));
        RecordMergeCommit(repository, line);
        err := None;
    }

    /**
     * The loop both passes share: `for line in reversed(lines)`, decide then
     * process. It stops at the first error, as the raised exception does.
     */
    method ReplayReversed(ghost pass: Pass, repository: string, lines: seq<string>, calendar: int -> Calendar)
      returns (err: Option<Error>)
      requires processInState == TableOf(pass) && currentState == Initial
      modifies this
      ensures var run := Run(TableOf(pass), old(changesByCommit), Reversed(lines));
        && (err.None? <==> run.Ok?)
        && (run.Ok? ==> && currentState == run.value.machine.state
                        && changesByCommit == run.value.machine.pending
                        && Ok(Accumulators()) == FoldEvents(pass, old(Accumulators()), repository, calendar, run.value.events))
      ensures processInState == old(processInState)
    {
      ghost var table := TableOf(pass);
      ghost var p0 := changesByCommit;
      ghost var a0 := Accumulators();
      assert lines[|lines|..] == [];
      var i := |lines|;
      while i > 0
        invariant 0 <= i <= |lines|
        invariant processInState == table
        invariant Run(table, p0, Reversed(lines[i..])).Ok?
        invariant var t := Run(table, p0, Reversed(lines[i..])).value;
          && currentState == t.machine.state && changesByCommit == t.machine.pending
          && FoldEvents(pass, a0, repository, calendar, t.events) == Ok(Accumulators())
        decreases i
      {
        i := i - 1;
        var line := lines[i];
        ghost var done := Reversed(lines[i + 1..]);
        ghost var t := Run(table, p0, done).value;
        ReversedSuffix(lines, i);
        RunSnoc(table, p0, done, line);
        err := Decide(line);
        if err.Some? {
          RunErrSticky(table, p0, done + [line], Reversed(lines[..i]));
          return;
        }
        PassStep(pass, p0, a0, repository, calendar, done, line, Accumulators(), currentState);
        err := ProcessCurrentState(repository, line, calendar);
        if err.Some? {
          RunErrSticky(table, p0, done + [line], Reversed(lines[..i]));
          return;
        }
      }
      assert lines[0..] == lines;
      err := None;
    }

    /**
     * `_collect_lines_modified`: replay the log with `_update_lines_modified`
     * on (ChangesByCommit, CommitInfo), then restore `do_nothing`. A raised
     * error leaves the table as the pass set it.
     */
    method CollectLinesModified(repository: string, pipeOut: string, calendar: int -> Calendar)
      returns (err: Option<Error>)
      requires Valid()
      modifies this
      ensures var run := Run(TableOf(LinesPass), old(changesByCommit), Reversed(Split(pipeOut, '\n')));
        && (err.None? <==> run.Ok?)
        && (run.Ok? ==> && Valid()
                        && currentState == run.value.machine.state
                        && changesByCommit == run.value.machine.pending
                        && Ok(Accumulators()) == FoldEvents(LinesPass, old(Accumulators()), repository, calendar, run.value.events))
    {
      ghost var a0, p0 := Accumulators(), changesByCommit;
      currentState, processInState := Initial, processInState[(ChangesByCommit, CommitInfo) := UpdateLinesModified];
      assert Accumulators() == a0 && changesByCommit == p0;
      var lines := Split(pipeOut, '\n');
      err := ReplayReversed(LinesPass, repository, lines, calendar);
      ghost var run := Run(TableOf(LinesPass), p0, Reversed(lines));
      if err.Some? {
        return;
      }
      ghost var acc, state, pending := Accumulators(), currentState, changesByCommit;
      assert Ok(acc) == FoldEvents(LinesPass, a0, repository, calendar, run.value.events);
      FoldKeepsConsistent(LinesPass, a0, repository, calendar, run.value.events);
      TablesRestored();
      processInState := processInState[(ChangesByCommit, CommitInfo) := DoNothing];
      assert Accumulators() == acc && currentState == state && changesByCommit == pending;
    }

    /**
     * `_collect_lines_modified_by_author`: replay the log with
     * `_update_lines_modified_by_author` on (ChangesByCommit, CommitInfo) and
     * `_update_merge_commit` on (CommitInfo, CommitInfo), then restore both.
     */
    method CollectLinesModifiedByAuthor(repository: string, pipeOut: string, calendar: int -> Calendar)
      returns (err: Option<Error>)
      requires Valid()
      modifies this
      ensures var run := Run(TableOf(AuthorsPass), old(changesByCommit), Reversed(Split(pipeOut, '\n')));
        && (err.None? <==> run.Ok?)
        && (run.Ok? ==> && Valid()
                        && currentState == run.value.machine.state
                        && changesByCommit == run.value.machine.pending
                        && Ok(Accumulators()) == FoldEvents(AuthorsPass, old(Accumulators()), repository, calendar, run.value.events))
    {
      ghost var a0, p0 := Accumulators(), changesByCommit;
      var table := processInState[(ChangesByCommit, CommitInfo) := UpdateLinesModifiedByAuthor];
      table := table[(CommitInfo, CommitInfo) := UpdateMergeCommit];
      currentState, processInState := Initial, table;
      assert Accumulators() == a0 && changesByCommit == p0;
      var lines := Split(pipeOut, '\n');
      err := ReplayReversed(AuthorsPass, repository, lines, calendar);
      ghost var run := Run(TableOf(AuthorsPass), p0, Reversed(lines));
      if err.Some? {
        return;
      }
      ghost var acc, state, pending := Accumulators(), currentState, changesByCommit;
      assert Ok(acc) == FoldEvents(AuthorsPass, a0, repository, calendar, run.value.events);
      FoldKeepsConsistent(AuthorsPass, a0, repository, calendar, run.value.events);
      TablesRestored();
      table := processInState[(ChangesByCommit, CommitInfo) := DoNothing];
      table := table[(CommitInfo, CommitInfo) := DoNothing];
      processInState := table;
      assert Accumulators() == acc && currentState == state && changesByCommit == pending;
    }
  }
}
