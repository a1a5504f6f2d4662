/**
 * GitContributionActivity: `_collect_commits_graph` reads one line per commit
 * of `git rev-list --pretty=format:"%at %ai %aN <%aE>"` and feeds it to the
 * `_update_*` accumulators.
 *
 * The dictionaries are gathered in the value type ActivityState; each
 * accumulator is a pure update of it, and the class's methods are proved to
 * perform exactly those updates.  The busiest and peak counters, the monthly
 * and yearly totals and the first active day are proved to keep their
 * meaning (Valid) through every commit.  The local-time conversion
 * `datetime.fromtimestamp` is a parameter.
 */
module Activity {
  import opened Wrappers
  import opened Text

  /** The fields `_collect_commits_graph` reads from `datetime.fromtimestamp(stamp)`. */
  datatype Moment = Moment(
    hour: int,          // date.hour
    weekday: int,       // date.weekday()
    month: int,         // date.month
    yearWeek: string,   // date.strftime('%Y-%W')
    yearMonth: string,  // date.strftime('%Y-%m')
    year: int,          // date.year
    day: string)        // date.strftime('%Y-%m-%d')

  /** What `_collect_commits_graph` keeps of one commit line. */
  datatype CommitLine = CommitLine(stamp: int, timezone: string, author: string, domain: string)

  /** One `_authors_of_repository[author]` record as this collector fills it; a day not yet recorded is None. */
  datatype AuthorActivity = AuthorActivity(lastCommitStamp: int, firstCommitStamp: int, firstActiveDay: Option<string>, activeDays: set<string>)

  /** The stamps and plain counters: first and last commit stamps, the commit total, mail domains and time zones. */
  datatype Totals = Totals(
    firstCommitStamp: int,
    lastCommitStamp: int,
    totalCommits: int,
    domains: map<string, nat>,
    commitsByTimezone: map<string, nat>)

  /** The `activity_by_*` histograms with their busiest (peak) counts. */
  datatype Histograms = Histograms(
    byHourOfDay: map<int, nat>,
    byHourOfDayBusiest: nat,
    byDayOfWeek: map<int, nat>,
    byHourOfWeek: map<int, map<int, nat>>,
    byHourOfWeekBusiest: nat,
    byMonthOfYear: map<int, nat>,
    byYearWeek: map<string, nat>,
    byYearWeekPeak: nat)

  /** The commits of each author per month and per year, and the totals per month and per year. */
  datatype Periods = Periods(
    authorOfMonth: map<string, map<string, nat>>,
    commitsByMonth: map<string, nat>,
    authorOfYear: map<int, map<string, nat>>,
    commitsByYear: map<int, nat>)

  /** The days with a commit and the earliest of them. */
  datatype Days = Days(firstActiveDay: Option<string>, activeDays: set<string>)

  /** The dictionaries and counters of GitContributionActivity, grouped by the accumulators that touch them. */
  datatype ActivityState = ActivityState(
    totals: Totals,
    histograms: Histograms,
    periods: Periods,
    days: Days,
    authorsOfRepository: map<string, AuthorActivity>)

  const Initial := ActivityState(
    Totals(0, 0, 0, map[], map[]),
    Histograms(map[], 0, map[], map[], 0, map[], map[], 0),
    Periods(map[], map[], map[], map[]),
    Days(None, {}),
    map[])


  /** `d.get(k, 0)`. */
  function Count<K>(m: map<K, nat>, k: K): nat
  {
    if k in m then m[k] else 0
  }

  /** `d[k] = d.get(k, 0) + 1`. */
  function Bump<K>(m: map<K, nat>, k: K): (r: map<K, nat>)
    ensures r.Keys == m.Keys + {k}
    ensures r[k] == Count(m, k) + 1
    ensures forall j :: j in m && j != k ==> r[j] == m[j]
  {
    m[k := Count(m, k) + 1]
  }

  // ---------------------------------------------------------------------------
  // Parsing a commit line

  /** The domain of a mail address: what follows its last '@', or '?' without one. */
  function MailDomain(mail: string): (d: string)
    ensures '@' !in mail ==> d == "?"
    ensures '@' in mail ==> '@' !in d && |d| < |mail| && mail == mail[..|mail| - |d| - 1] + "@" + d
  {
    if Find(mail, '@') == -1 then "?"
    else
      var i := RFind(mail, '@');
      assert mail == mail[..i] + "@" + mail[i + 1..];
      mail[i + 1..]
  }

  /**
   * `parts = line.split(' ', 4)`, `int(parts[0])`, `parts[3]` the time zone,
   * `parts[4].split('<', 1)` the author (right-stripped) and the mail (with
   * its trailing '>' stripped).  Each failure is the exception Python raises.
   */
  function ParseCommitLine(line: string): (r: Result<CommitLine>)
    ensures r.Ok? ==> |SplitN(line, ' ', 4)| == 5 && r.value.timezone == SplitN(line, ' ', 4)[3]
    ensures r.Ok? ==> ParseInt(SplitN(line, ' ', 4)[0]) == Some(r.value.stamp)
  {
    var parts := SplitN(line, ' ', 4);
    match ParseInt(parts[0])
    case None => Err(ValueError(parts[0]))
    case Some(stamp) =>
      if |parts| < 4 then Err(IndexError("parts[3]"))
      else if |parts| < 5 then Err(IndexError("parts[4]"))
      else
        var halves := SplitN(parts[4], '<', 1);
        if |halves| != 2 then Err(ValueError(parts[4]))
        else Ok(CommitLine(stamp, parts[3], RStripSpace(halves[0]), MailDomain(RStripChar(halves[1], '>'))))
  }

  /** A line as `--pretty=format:"%at %ai %aN <%aE>"` prints it; `%ai` is date, time and zone. */
  function CommitText(stamp: nat, date: string, time: string, zone: string, author: string, mail: string): string
  {
    NatToString(stamp) + " " + (date + " " + (time + " " + (zone + " " + (author + " <" + mail + ">"))))
  }

  lemma NoBlankInDigits(digits: string)
    requires AllDigits(digits)
    ensures ' ' !in digits
  {
    forall i | 0 <= i < |digits|
      ensures digits[i] != ' '
    {
      assert IsDigit(digits[i]);
    }
  }

  /** The author and mail part splits at its first '<' into the author with a blank, and the mail with its '>'. */
  lemma AuthorMailHalves(author: string, mail: string)
    requires '<' !in author
    ensures SplitN(author + " <" + mail + ">", '<', 1) == [author + " "] + [mail + ">"]
  {
    var w := author + " ";
    var rest := mail + ">";
    assert author + " <" + mail + ">" == w + ['<'] + rest;
    assert '<' !in w;
    SplitNLast(rest, '<', 0);
    SplitNStep(w, '<', rest, 1);
  }

  lemma StripAuthorAndMail(author: string, mail: string)
    requires author == [] || !IsSpace(author[|author| - 1])
    requires mail == [] || mail[|mail| - 1] != '>'
    ensures RStripSpace(author + " ") == author
    ensures RStripChar(mail + ">", '>') == mail
  {
    assert (author + " ")[..|author|] == author;
    assert (mail + ">")[..|mail|] == mail;
  }

  /** The fields up to the zone split off at single blanks; the author and mail stay together. */
  lemma CommitTextParts(stamp: nat, date: string, time: string, zone: string, rest: string)
    requires ' ' !in date && ' ' !in time && ' ' !in zone
    ensures SplitN(NatToString(stamp) + " " + (date + " " + (time + " " + (zone + " " + rest))), ' ', 4)
      == [NatToString(stamp)] + ([date] + ([time] + ([zone] + [rest])))
  {
    NoBlankInDigits(NatToString(stamp));
    SplitNLast(rest, ' ', 0);
    var s3 := zone + " " + rest;
    SplitNStep(zone, ' ', rest, 1);
    assert zone + [' '] + rest == s3;
    var s2 := time + " " + s3;
    SplitNStep(time, ' ', s3, 2);
    assert time + [' '] + s3 == s2;
    var s1 := date + " " + s2;
    SplitNStep(date, ' ', s2, 3);
    assert date + [' '] + s2 == s1;
    SplitNStep(NatToString(stamp), ' ', s1, 4);
    assert NatToString(stamp) + [' '] + s1 == NatToString(stamp) + " " + s1;
  }

  /** A well-formed line gives back its stamp, zone, author and mail domain. */
  lemma CommitTextParsed(stamp: nat, date: string, time: string, zone: string, author: string, mail: string)
    requires ' ' !in date && ' ' !in time && ' ' !in zone
    requires '<' !in author && (author == [] || !IsSpace(author[|author| - 1]))
    requires mail == [] || mail[|mail| - 1] != '>'
    ensures ParseCommitLine(CommitText(stamp, date, time, zone, author, mail)) == Ok(CommitLine(stamp, zone, author, MailDomain(mail)))
  {
    var rest := author + " <" + mail + ">";
    CommitTextParts(stamp, date, time, zone, rest);
    AuthorMailHalves(author, mail);
    StripAuthorAndMail(author, mail);
    assert ParseInt(NatToString(stamp)) == Some(stamp);
  }

  // ---------------------------------------------------------------------------
  // The accumulators, as updates of ActivityState

  /** `_update_extremal_commit_stamps` on the pair (first, last); a first stamp of 0 means none yet. */
  function NextExtremes(first: int, last: int, stamp: int): (int, int)
  {
    (if first == 0 || stamp < first then stamp else first, if stamp > last then stamp else last)
  }

  /** `_update_extremal_commit_stamps`. */
  function ExtremalUpdated(t: Totals, stamp: int): Totals
  {
    var (first, last) := NextExtremes(t.firstCommitStamp, t.lastCommitStamp, stamp);
    t.(firstCommitStamp := first, lastCommitStamp := last)
  }

  /** `_update_mail_domains`. */
  function DomainCounted(t: Totals, domain: string): Totals
  {
    t.(domains := Bump(t.domains, domain))
  }

  /** `_update_timezones`. */
  function TimezoneCounted(t: Totals, zone: string): Totals
  {
    t.(commitsByTimezone := Bump(t.commitsByTimezone, zone))
  }

  function Max(x: nat, y: nat): nat { if x < y then y else x }

  /** The hour-of-week count of (day, hour), 0 when absent. */
  function WeekCount(m: map<int, map<int, nat>>, day: int, hour: int): nat
  {
    if day in m then Count(m[day], hour) else 0
  }

  /** `activity_by_hour_of_week[day][hour] += 1`, creating the day's dictionary first. */
  function WeekBumped(m: map<int, map<int, nat>>, day: int, hour: int): (r: map<int, map<int, nat>>)
    ensures r.Keys == m.Keys + {day}
    ensures r[day] == Bump(if day in m then m[day] else map[], hour)
    ensures forall d :: d in m && d != day ==> r[d] == m[d]
  {
    m[day := Bump(if day in m then m[day] else map[], hour)]
  }

  /** `_update_activity`, the hour of day: its count, and the busiest hour's if this one is now busier. */
  function HourCounted(h: Histograms, hour: int): Histograms
  {
    h.(byHourOfDay := Bump(h.byHourOfDay, hour),
       byHourOfDayBusiest := Max(h.byHourOfDayBusiest, Count(h.byHourOfDay, hour) + 1))
  }

  /** `_update_activity`, the weekday and the hour of week: their counts and the busiest hour of week's. */
  function WeekCounted(h: Histograms, day: int, hour: int): Histograms
  {
    h.(byDayOfWeek := Bump(h.byDayOfWeek, day),
       byHourOfWeek := WeekBumped(h.byHourOfWeek, day, hour),
       byHourOfWeekBusiest := Max(h.byHourOfWeekBusiest, WeekCount(h.byHourOfWeek, day, hour) + 1))
  }

  /** `_update_activity`, the month and the year-week: their counts and the peak year-week's. */
  function SeasonCounted(h: Histograms, month: int, yearWeek: string): Histograms
  {
    h.(byMonthOfYear := Bump(h.byMonthOfYear, month),
       byYearWeek := Bump(h.byYearWeek, yearWeek),
       byYearWeekPeak := Max(h.byYearWeekPeak, Count(h.byYearWeek, yearWeek) + 1))
  }

  /** `_update_activity`: the hour, weekday, hour-of-week, month and year-week histograms and their maxima. */
  function ActivityCounted(h: Histograms, m: Moment): Histograms
  {
    SeasonCounted(WeekCounted(HourCounted(h, m.hour), m.weekday, m.hour), m.month, m.yearWeek)
  }

  /**
   * `_update_author_stats`: an unseen author starts with both stamps at this
   * commit's; otherwise the later (earlier) stamp replaces the last (first).
   */
  function AuthorStatsUpdated(authors: map<string, AuthorActivity>, author: string, stamp: int): (r: map<string, AuthorActivity>)
    ensures r.Keys == authors.Keys + {author}
    ensures forall x :: x in authors && x != author ==> r[x] == authors[x]
    ensures author !in authors ==> r[author] == AuthorActivity(stamp, stamp, None, {})
    ensures author in authors ==>
      var prev := authors[author];
      && r[author].lastCommitStamp == (if stamp > prev.lastCommitStamp then stamp else prev.lastCommitStamp)
      && r[author].firstCommitStamp == (if stamp < prev.firstCommitStamp then stamp else prev.firstCommitStamp)
      && r[author].firstActiveDay == prev.firstActiveDay && r[author].activeDays == prev.activeDays
  {
    var rec := if author in authors then authors[author] else AuthorActivity(stamp, stamp, None, {});
    var rec1 := if stamp > rec.lastCommitStamp then rec.(lastCommitStamp := stamp) else rec;
    var rec2 := if stamp < rec1.firstCommitStamp then rec1.(firstCommitStamp := stamp) else rec1;
    authors[author := rec2]
  }

  /** The earlier of a recorded first day and a new day. */
  function EarliestDay(first: Option<string>, day: string): (r: string)
    ensures first.None? ==> r == day
    ensures first.Some? ==> r == (if Less(day, first.value) then day else first.value)
  {
    match first
    case None => day
    case Some(d) => if Less(day, d) then day else d
  }

  /** `_update_author_activity`: the author's first active day and active days; the author is already recorded. */
  function AuthorActivityUpdated(authors: map<string, AuthorActivity>, author: string, day: string): map<string, AuthorActivity>
    requires author in authors
  {
    var rec := authors[author];
    authors[author := rec.(firstActiveDay := Some(EarliestDay(rec.firstActiveDay, day)), activeDays := rec.activeDays + {day})]
  }

  /** `_update_commits_by_month`. */
  function MonthCounted(p: Periods, author: string, yearMonth: string): Periods
  {
    var authors := if yearMonth in p.authorOfMonth then p.authorOfMonth[yearMonth] else map[];
    p.(authorOfMonth := p.authorOfMonth[yearMonth := Bump(authors, author)],
       commitsByMonth := Bump(p.commitsByMonth, yearMonth))
  }

  /** `_update_commits_by_year`. */
  function YearCounted(p: Periods, author: string, year: int): Periods
  {
    var authors := if year in p.authorOfYear then p.authorOfYear[year] else map[];
    p.(authorOfYear := p.authorOfYear[year := Bump(authors, author)],
       commitsByYear := Bump(p.commitsByYear, year))
  }

  /** `_update_active_days`. */
  function ActiveDayAdded(d: Days, day: string): Days
  {
    Days(Some(EarliestDay(d.firstActiveDay, day)), d.activeDays + {day})
  }

  /**
   * The body of the loop in `_collect_commits_graph`.  The source calls the
   * accumulators in the order extremal stamps, mail domains, activity, author
   * stats, author activity, month, year, active days, time zones; each part
   * below is updated in that order, and no accumulator touches another's part.
   */
  function CommitRecorded(a: ActivityState, c: CommitLine, m: Moment): ActivityState
  {
    var totals := TimezoneCounted(DomainCounted(ExtremalUpdated(a.totals, c.stamp), c.domain), c.timezone);
    var authors := AuthorStatsUpdated(a.authorsOfRepository, c.author, c.stamp);
    ActivityState(
      totals,
      ActivityCounted(a.histograms, m),
      YearCounted(MonthCounted(a.periods, c.author, m.yearMonth), c.author, m.year),
      ActiveDayAdded(a.days, m.day),
      AuthorActivityUpdated(authors, c.author, m.day))
  }

  /** The loop of `_collect_commits_graph` over its lines; a line that does not parse stops it. */
  function RecordLines(a: ActivityState, lines: seq<string>, calendar: int -> Moment): (ActivityState, Option<Error>)
    decreases |lines|
  {
    if lines == [] then (a, None)
    else
      match ParseCommitLine(lines[0])
      case Err(e) => (a, Some(e))
      case Ok(c) => RecordLines(CommitRecorded(a, c, calendar(c.stamp)), lines[1..], calendar)
  }

  /** The loop's first line: an error stops it where it is, a commit is recorded before the rest. */
  lemma RecordLinesFirst(a: ActivityState, lines: seq<string>, calendar: int -> Moment)
    requires lines != []
    ensures ParseCommitLine(lines[0]).Err? ==> RecordLines(a, lines, calendar) == (a, Some(ParseCommitLine(lines[0]).error))
    ensures ParseCommitLine(lines[0]).Ok? ==>
      var c := ParseCommitLine(lines[0]).value;
      RecordLines(a, lines, calendar) == RecordLines(CommitRecorded(a, c, calendar(c.stamp)), lines[1..], calendar)
  {
  }

  /** `_collect_commits_graph`: every line counts as a commit before any is parsed. */
  function CommitsGraph(a: ActivityState, pipeOut: string, calendar: int -> Moment): (ActivityState, Option<Error>)
  {
    var lines := Split(pipeOut, '\n');
    RecordLines(a.(totals := a.totals.(totalCommits := a.totals.totalCommits + |lines|)), lines, calendar)
  }

  /** `get_commit_delta_days`: the days from the first commit's to the last commit's, both counted. */
  function CommitDeltaDays(first: int, last: int): (r: int)
    ensures first <= last ==> 1 <= r
    ensures first <= last ==> (last - first) / 86400 + 1 <= r <= (last - first) / 86400 + 2
    ensures first <= last && last / 86400 == first / 86400 ==> r == 1
  {
    (last / 86400 - first / 86400) + 1
  }

  // ---------------------------------------------------------------------------
  // What the counters mean

  /** `busiest` is the largest count of a histogram whose counts are positive. */
  predicate IsMaxOf<K>(m: map<K, nat>, busiest: nat)
  {
    && (forall k :: k in m ==> 0 < m[k] <= busiest)
    && (busiest == 0 || exists k :: k in m && m[k] == busiest)
  }

  /** `busiest` is the largest count over every (day, hour) of the hour-of-week histogram. */
  predicate IsNestedMaxOf(m: map<int, map<int, nat>>, busiest: nat)
  {
    && (forall d, h :: d in m && h in m[d] ==> 0 < m[d][h] <= busiest)
    && (busiest == 0 || exists d, h :: d in m && h in m[d] && m[d][h] == busiest)
  }

  /** The sum of a histogram's counts. */
  ghost function SumOf<K>(m: map<K, nat>): nat
    decreases |m.Keys|
  {
    if m == map[] then 0
    else
      var k :| k in m;
      m[k] + SumOf(m - {k})
  }

  /** Each monthly (yearly) total is the sum of that month's (year's) per-author counts. */
  ghost predicate TotalsAreSums<K>(byAuthor: map<K, map<string, nat>>, totals: map<K, nat>)
  {
    && totals.Keys == byAuthor.Keys
    && forall k :: k in totals ==> totals[k] == SumOf(byAuthor[k])
  }

  /** A first day is recorded exactly when some day is, and it is the earliest. */
  predicate IsFirstDay(first: Option<string>, days: set<string>)
  {
    && (first.None? <==> days == {})
    && (first.Some? ==> first.value in days && forall d :: d in days ==> !Less(d, first.value))
  }

  /** An author's record: first stamp at most last, and a first active day that is the earliest. */
  predicate AuthorValid(rec: AuthorActivity)
  {
    rec.firstCommitStamp <= rec.lastCommitStamp && IsFirstDay(rec.firstActiveDay, rec.activeDays)
  }

  predicate HistogramsValid(h: Histograms)
  {
    && IsMaxOf(h.byHourOfDay, h.byHourOfDayBusiest)
    && IsNestedMaxOf(h.byHourOfWeek, h.byHourOfWeekBusiest)
    && IsMaxOf(h.byYearWeek, h.byYearWeekPeak)
  }

  ghost predicate PeriodsValid(p: Periods)
  {
    TotalsAreSums(p.authorOfMonth, p.commitsByMonth) && TotalsAreSums(p.authorOfYear, p.commitsByYear)
  }

  predicate AuthorsValid(authors: map<string, AuthorActivity>)
  {
    forall author :: author in authors ==> AuthorValid(authors[author])
  }

  ghost predicate Valid(a: ActivityState)
  {
    && HistogramsValid(a.histograms)
    && PeriodsValid(a.periods)
    && IsFirstDay(a.days.firstActiveDay, a.days.activeDays)
    && AuthorsValid(a.authorsOfRepository)
  }

  lemma InitialValid()
    ensures Valid(Initial)
  {
    assert SumOf<string>(map[]) == 0;
  }


  /** Counting one more for a key keeps the running maximum the maximum. */
  lemma BumpKeepsMax<K>(m: map<K, nat>, busiest: nat, k: K)
    requires IsMaxOf(m, busiest)
    ensures IsMaxOf(Bump(m, k), Max(busiest, Count(m, k) + 1))
  {
    var r := Bump(m, k);
    var b := Max(busiest, Count(m, k) + 1);
    if b != Count(m, k) + 1 {
      var w :| w in m && m[w] == busiest;
      assert w != k;
      assert r[w] == b;
    }
  }

  lemma WeekBumpKeepsMax(m: map<int, map<int, nat>>, busiest: nat, day: int, hour: int)
    requires IsNestedMaxOf(m, busiest)
    ensures IsNestedMaxOf(WeekBumped(m, day, hour), Max(busiest, WeekCount(m, day, hour) + 1))
  {
    var r := WeekBumped(m, day, hour);
    var c := WeekCount(m, day, hour) + 1;
    var b := Max(busiest, c);
    assert r[day][hour] == c;
    forall d, h | d in r && h in r[d]
      ensures 0 < r[d][h] <= b
    {
      if d != day {
        assert r[d][h] == m[d][h];
      } else if h != hour {
        assert r[d][h] == m[d][h];
      }
    }
    if b != c {
      var wd, wh :| wd in m && wh in m[wd] && m[wd][wh] == busiest;
      assert wd != day || wh != hour;
      assert r[wd][wh] == busiest;
    }
  }

  /** The sum without one key: the basic step of every other fact about SumOf. */
  lemma {:induction false} SumOfRemove<K>(m: map<K, nat>, k: K)
    requires k in m
    ensures SumOf(m) == m[k] + SumOf(m - {k})
    decreases |m.Keys|
  {
    var j :| j in m && SumOf(m) == m[j] + SumOf(m - {j});
    if j != k {
      SumOfRemove(m - {j}, k);
      SumOfRemove(m - {k}, j);
      assert (m - {j}) - {k} == (m - {k}) - {j};
    }
  }

  /** Counting one more for a key adds one to the sum. */
  lemma SumOfBump<K>(m: map<K, nat>, k: K)
    ensures SumOf(Bump(m, k)) == SumOf(m) + 1
  {
    var r := Bump(m, k);
    SumOfRemove(r, k);
    if k in m {
      SumOfRemove(m, k);
      assert r - {k} == m - {k};
    } else {
      assert r - {k} == m;
    }
  }

  lemma TotalsBumped<K>(byAuthor: map<K, map<string, nat>>, totals: map<K, nat>, key: K, author: string)
    requires TotalsAreSums(byAuthor, totals)
    ensures var authors := if key in byAuthor then byAuthor[key] else map[];
      TotalsAreSums(byAuthor[key := Bump(authors, author)], Bump(totals, key))
  {
    var authors := if key in byAuthor then byAuthor[key] else map[];
    SumOfBump(authors, author);
    if key !in byAuthor {
      assert SumOf(authors) == 0;
    }
  }

  lemma EarliestDayKeepsFirst(first: Option<string>, days: set<string>, day: string)
    requires IsFirstDay(first, days)
    ensures IsFirstDay(Some(EarliestDay(first, day)), days + {day})
  {
    var e := EarliestDay(first, day);
    LessIrreflexive(day);
    if first.Some? {
      var f := first.value;
      forall d | d in days + {day}
        ensures !Less(d, e)
      {
        if Less(day, f) {
          if d != day && Less(d, day) {
            LessTransitive(d, day, f);
          }
        } else {
          if d == day {
            LessIrreflexive(f);
          }
        }
      }
    }
  }


  lemma ActivityKeepsValid(h: Histograms, m: Moment)
    requires HistogramsValid(h)
    ensures HistogramsValid(ActivityCounted(h, m))
  {
    BumpKeepsMax(h.byHourOfDay, h.byHourOfDayBusiest, m.hour);
    var h1 := HourCounted(h, m.hour);
    WeekBumpKeepsMax(h1.byHourOfWeek, h1.byHourOfWeekBusiest, m.weekday, m.hour);
    var h2 := WeekCounted(h1, m.weekday, m.hour);
    BumpKeepsMax(h2.byYearWeek, h2.byYearWeekPeak, m.yearWeek);
  }

  lemma PeriodsKeepValid(p: Periods, author: string, yearMonth: string, year: int)
    requires PeriodsValid(p)
    ensures PeriodsValid(YearCounted(MonthCounted(p, author, yearMonth), author, year))
  {
    TotalsBumped(p.authorOfMonth, p.commitsByMonth, yearMonth, author);
    TotalsBumped(p.authorOfYear, p.commitsByYear, year, author);
  }

  lemma AuthorKeepsValid(authors: map<string, AuthorActivity>, author: string, stamp: int, day: string)
    requires AuthorsValid(authors)
    ensures var r := AuthorStatsUpdated(authors, author, stamp);
      AuthorsValid(AuthorActivityUpdated(r, author, day))
  {
    var r := AuthorStatsUpdated(authors, author, stamp);
    var rec := r[author];
    assert AuthorValid(rec);
    EarliestDayKeepsFirst(rec.firstActiveDay, rec.activeDays, day);
  }

  /** Every accumulator keeps what the counters mean. */
  lemma CommitKeepsValid(a: ActivityState, c: CommitLine, m: Moment)
    requires Valid(a)
    ensures Valid(CommitRecorded(a, c, m))
  {
    ActivityKeepsValid(a.histograms, m);
    PeriodsKeepValid(a.periods, c.author, m.yearMonth, m.year);
    EarliestDayKeepsFirst(a.days.firstActiveDay, a.days.activeDays, m.day);
    AuthorKeepsValid(a.authorsOfRepository, c.author, c.stamp, m.day);
  }

  lemma {:induction false} RecordLinesKeepsValid(a: ActivityState, lines: seq<string>, calendar: int -> Moment)
    requires Valid(a)
    ensures Valid(RecordLines(a, lines, calendar).0)
    decreases |lines|
  {
    if lines != [] {
      match ParseCommitLine(lines[0])
      case Err(_) =>
      case Ok(c) =>
        CommitKeepsValid(a, c, calendar(c.stamp));
        RecordLinesKeepsValid(CommitRecorded(a, c, calendar(c.stamp)), lines[1..], calendar);
    }
  }

  /** The first and last commit stamps over a run of stamps, from a starting pair. */
  function Extremes(first: int, last: int, stamps: seq<int>): (int, int)
    decreases |stamps|
  {
    if stamps == [] then (first, last)
    else
      var (f, l) := Extremes(first, last, stamps[..|stamps| - 1]);
      NextExtremes(f, l, stamps[|stamps| - 1])
  }

  /** For positive stamps the first and last commit stamps are the least and greatest seen. */
  lemma {:induction false} ExtremesAreMinMax(stamps: seq<int>)
    requires stamps != [] && forall i :: 0 <= i < |stamps| ==> stamps[i] > 0
    ensures var (f, l) := Extremes(0, 0, stamps);
      f in stamps && l in stamps && forall i :: 0 <= i < |stamps| ==> f <= stamps[i] <= l
    decreases |stamps|
  {
    var init := stamps[..|stamps| - 1];
    var s := stamps[|stamps| - 1];
    if init != [] {
      ExtremesAreMinMax(init);
      var (f, l) := Extremes(0, 0, init);
      forall i | 0 <= i < |stamps|
        ensures Extremes(0, 0, stamps).0 <= stamps[i] <= Extremes(0, 0, stamps).1
      {
        if i < |init| {
          assert stamps[i] == init[i];
        }
      }
      assert f in init && l in init;
    } else {
      assert stamps == [s];
    }
  }

  // ---------------------------------------------------------------------------
  // The collector

  class GitContributionActivity {
    var firstCommitStamp: int
    var lastCommitStamp: int
    var totalCommits: int
    var domains: map<string, nat>
    var activityByHourOfDay: map<int, nat>
    var activityByHourOfDayBusiest: nat
    var activityByDayOfWeek: map<int, nat>
    var activityByHourOfWeek: map<int, map<int, nat>>
    var activityByHourOfWeekBusiest: nat
    var activityByMonthOfYear: map<int, nat>
    var activityByYearWeek: map<string, nat>
    var activityByYearWeekPeak: nat
    var authorOfMonth: map<string, map<string, nat>>
    var commitsByMonth: map<string, nat>
    var authorOfYear: map<int, map<string, nat>>
    var commitsByYear: map<int, nat>
    var firstActiveDay: Option<string>
    var activeDays: set<string>
    var commitsByTimezone: map<string, nat>
    var authorsOfRepository: map<string, AuthorActivity>

    function CurrentTotals(): Totals
      reads this`firstCommitStamp, this`lastCommitStamp, this`totalCommits, this`domains, this`commitsByTimezone
    {
      Totals(firstCommitStamp, lastCommitStamp, totalCommits, domains, commitsByTimezone)
    }

    function CurrentHistograms(): Histograms
      reads this`activityByHourOfDay, this`activityByHourOfDayBusiest, this`activityByDayOfWeek,
            this`activityByHourOfWeek, this`activityByHourOfWeekBusiest, this`activityByMonthOfYear,
            this`activityByYearWeek, this`activityByYearWeekPeak
    {
      Histograms(activityByHourOfDay, activityByHourOfDayBusiest, activityByDayOfWeek,
                 activityByHourOfWeek, activityByHourOfWeekBusiest, activityByMonthOfYear,
                 activityByYearWeek, activityByYearWeekPeak)
    }

    function CurrentPeriods(): Periods
      reads this`authorOfMonth, this`commitsByMonth, this`authorOfYear, this`commitsByYear
    {
      Periods(authorOfMonth, commitsByMonth, authorOfYear, commitsByYear)
    }

    function CurrentDays(): Days
      reads this`firstActiveDay, this`activeDays
    {
      Days(firstActiveDay, activeDays)
    }

    function State(): ActivityState
      reads this
    {
      ActivityState(CurrentTotals(), CurrentHistograms(), CurrentPeriods(), CurrentDays(), authorsOfRepository)
    }

    constructor()
      ensures State() == Initial && Valid(State())
    {
      firstCommitStamp, lastCommitStamp, totalCommits := 0, 0, 0;
      domains := map[];
      activityByHourOfDay, activityByHourOfDayBusiest := map[], 0;
      activityByDayOfWeek := map[];
      activityByHourOfWeek, activityByHourOfWeekBusiest := map[], 0;
      activityByMonthOfYear := map[];
      activityByYearWeek, activityByYearWeekPeak := map[], 0;
      authorOfMonth, commitsByMonth := map[], map[];
      authorOfYear, commitsByYear := map[], map[];
      firstActiveDay, activeDays := None, {};
      commitsByTimezone := map[];
      authorsOfRepository := map[];
      InitialValid();
    }

    method UpdateExtremalCommitStamps(stamp: int)
      modifies this`firstCommitStamp, this`lastCommitStamp
      ensures CurrentTotals() == ExtremalUpdated(old(CurrentTotals()), stamp)
    {
      if stamp > lastCommitStamp {
        lastCommitStamp := stamp;
      }
      if firstCommitStamp == 0 || stamp < firstCommitStamp {
        firstCommitStamp := stamp;
      }
    }

    method UpdateMailDomains(domain: string)
      modifies this`domains
      ensures CurrentTotals() == DomainCounted(old(CurrentTotals()), domain)
    {
      domains := domains[domain := Count(domains, domain) + 1];
    }

    /** `_update_activity`, in three steps that each touch their own histograms. */
    method UpdateActivity(m: Moment)
      modifies this`activityByHourOfDay, this`activityByHourOfDayBusiest, this`activityByDayOfWeek,
               this`activityByHourOfWeek, this`activityByHourOfWeekBusiest, this`activityByMonthOfYear,
               this`activityByYearWeek, this`activityByYearWeekPeak
      ensures CurrentHistograms() == ActivityCounted(old(CurrentHistograms()), m)
    {
      CountHour(m.hour);
      CountWeekHour(m.weekday, m.hour);
      CountSeason(m.month, m.yearWeek);
    }

    /** The hour-of-day lines of `_update_activity`. */
    method CountHour(hour: int)
      modifies this`activityByHourOfDay, this`activityByHourOfDayBusiest
      ensures CurrentHistograms() == HourCounted(old(CurrentHistograms()), hour)
    {
      activityByHourOfDay := activityByHourOfDay[hour := Count(activityByHourOfDay, hour) + 1];
      if activityByHourOfDay[hour] > activityByHourOfDayBusiest {
        activityByHourOfDayBusiest := activityByHourOfDay[hour];
      }
    }

    /** The weekday and hour-of-week lines of `_update_activity`. */
    method CountWeekHour(day: int, hour: int)
      modifies this`activityByDayOfWeek, this`activityByHourOfWeek, this`activityByHourOfWeekBusiest
      ensures CurrentHistograms() == WeekCounted(old(CurrentHistograms()), day, hour)
    {
      activityByDayOfWeek := activityByDayOfWeek[day := Count(activityByDayOfWeek, day) + 1];
      ghost var week0 := activityByHourOfWeek;
      if day !in activityByHourOfWeek {
        activityByHourOfWeek := activityByHourOfWeek[day := map[]];
      }
      var hours: map<int, nat> := activityByHourOfWeek[day];
      assert hours == if day in week0 then week0[day] else map[];
      hours := hours[hour := Count(hours, hour) + 1];
      activityByHourOfWeek := activityByHourOfWeek[day := hours];
      assert activityByHourOfWeek == WeekBumped(week0, day, hour);
      if activityByHourOfWeek[day][hour] > activityByHourOfWeekBusiest {
        activityByHourOfWeekBusiest := activityByHourOfWeek[day][hour];
      }
    }

    /** The month and year-week lines of `_update_activity`. */
    method CountSeason(month: int, yearWeek: string)
      modifies this`activityByMonthOfYear, this`activityByYearWeek, this`activityByYearWeekPeak
      ensures CurrentHistograms() == SeasonCounted(old(CurrentHistograms()), month, yearWeek)
    {
      activityByMonthOfYear := activityByMonthOfYear[month := Count(activityByMonthOfYear, month) + 1];
      activityByYearWeek := activityByYearWeek[yearWeek := Count(activityByYearWeek, yearWeek) + 1];
      if activityByYearWeekPeak < activityByYearWeek[yearWeek] {
        activityByYearWeekPeak := activityByYearWeek[yearWeek];
      }
    }

    method UpdateAuthorStats(author: string, stamp: int)
      modifies this`authorsOfRepository
      ensures authorsOfRepository == AuthorStatsUpdated(old(authorsOfRepository), author, stamp)
    {
      if author !in authorsOfRepository {
        authorsOfRepository := authorsOfRepository[author := AuthorActivity(stamp, stamp, None, {})];
      }
      var rec := authorsOfRepository[author];
      if stamp > rec.lastCommitStamp {
        rec := rec.(lastCommitStamp := stamp);
      }
      if stamp < rec.firstCommitStamp {
        rec := rec.(firstCommitStamp := stamp);
      }
      authorsOfRepository := authorsOfRepository[author := rec];
    }

    method UpdateAuthorActivity(author: string, day: string)
      requires author in authorsOfRepository
      modifies this`authorsOfRepository
      ensures authorsOfRepository == AuthorActivityUpdated(old(authorsOfRepository), author, day)
    {
      var rec := authorsOfRepository[author];
      if rec.firstActiveDay.None? {
        rec := rec.(firstActiveDay := Some(day));
      }
      if Less(day, rec.firstActiveDay.value) {
        rec := rec.(firstActiveDay := Some(day));
      }
      rec := rec.(activeDays := rec.activeDays + {day});
      authorsOfRepository := authorsOfRepository[author := rec];
    }

    method UpdateCommitsByMonth(author: string, yearMonth: string)
      modifies this`authorOfMonth, this`commitsByMonth
      ensures CurrentPeriods() == MonthCounted(old(CurrentPeriods()), author, yearMonth)
    {
      if yearMonth in authorOfMonth {
        var authors: map<string, nat> := authorOfMonth[yearMonth];
        authors := authors[author := Count(authors, author) + 1];
        authorOfMonth := authorOfMonth[yearMonth := authors];
      } else {
        authorOfMonth := authorOfMonth[yearMonth := map[author := 1]];
      }
      commitsByMonth := commitsByMonth[yearMonth := Count(commitsByMonth, yearMonth) + 1];
    }

    method UpdateCommitsByYear(author: string, year: int)
      modifies this`authorOfYear, this`commitsByYear
      ensures CurrentPeriods() == YearCounted(old(CurrentPeriods()), author, year)
    {
      if year in authorOfYear {
        var authors: map<string, nat> := authorOfYear[year];
        authors := authors[author := Count(authors, author) + 1];
        authorOfYear := authorOfYear[year := authors];
      } else {
        authorOfYear := authorOfYear[year := map[author := 1]];
      }
      commitsByYear := commitsByYear[year := Count(commitsByYear, year) + 1];
    }

    method UpdateActiveDays(day: string)
      modifies this`firstActiveDay, this`activeDays
      ensures CurrentDays() == ActiveDayAdded(old(CurrentDays()), day)
    {
      if firstActiveDay.None? {
        firstActiveDay := Some(day);
      }
      if Less(day, firstActiveDay.value) {
        firstActiveDay := Some(day);
      }
      activeDays := activeDays + {day};
    }

    method UpdateTimezones(zone: string)
      modifies this`commitsByTimezone
      ensures CurrentTotals() == TimezoneCounted(old(CurrentTotals()), zone)
    {
      commitsByTimezone := commitsByTimezone[zone := Count(commitsByTimezone, zone) + 1];
    }

    /** The body of the loop in `_collect_commits_graph`, accumulator by accumulator. */
    method RecordCommit(c: CommitLine, m: Moment)
      modifies this
      ensures State() == CommitRecorded(old(State()), c, m)
    {
      RecordStampsOfCommit(c);
      ghost var a := State();
      UpdateActivity(m);
      assert State() == a.(histograms := ActivityCounted(a.histograms, m));
      RecordAuthorOfCommit(c, m);
      RecordDayOfCommit(c, m);
    }

    /** The extremal stamps and the mail domains of one commit. */
    method RecordStampsOfCommit(c: CommitLine)
      modifies this
      ensures State() == old(State()).(totals := DomainCounted(ExtremalUpdated(old(CurrentTotals()), c.stamp), c.domain))
    {
      ghost var a := State();
      UpdateExtremalCommitStamps(c.stamp);
      assert State() == a.(totals := ExtremalUpdated(a.totals, c.stamp));
      UpdateMailDomains(c.domain);
    }

    /** The author's stamps and active days, and the author's count for the month. */
    method RecordAuthorOfCommit(c: CommitLine, m: Moment)
      modifies this
      ensures State() == old(State()).(
        authorsOfRepository := AuthorActivityUpdated(AuthorStatsUpdated(old(authorsOfRepository), c.author, c.stamp), c.author, m.day),
        periods := MonthCounted(old(CurrentPeriods()), c.author, m.yearMonth))
    {
      ghost var a := State();
      UpdateAuthorStats(c.author, c.stamp);
      assert State() == a.(authorsOfRepository := AuthorStatsUpdated(a.authorsOfRepository, c.author, c.stamp));
      UpdateAuthorActivity(c.author, m.day);
      assert State() == a.(authorsOfRepository := AuthorActivityUpdated(AuthorStatsUpdated(a.authorsOfRepository, c.author, c.stamp), c.author, m.day));
      UpdateCommitsByMonth(c.author, m.yearMonth);
    }

    /** The author's count for the year, the active days and the time zone. */
    method RecordDayOfCommit(c: CommitLine, m: Moment)
      modifies this
      ensures State() == old(State()).(
        periods := YearCounted(old(CurrentPeriods()), c.author, m.year),
        days := ActiveDayAdded(old(CurrentDays()), m.day),
        totals := TimezoneCounted(old(CurrentTotals()), c.timezone))
    {
      ghost var a := State();
      UpdateCommitsByYear(c.author, m.year);
      assert State() == a.(periods := YearCounted(a.periods, c.author, m.year));
      UpdateActiveDays(m.day);
      assert State() == a.(periods := YearCounted(a.periods, c.author, m.year), days := ActiveDayAdded(a.days, m.day));
      UpdateTimezones(c.timezone);
    }

    /** One pass of the loop of `_collect_commits_graph`: parse the line, then record the commit. */
    method RecordLine(line: string, calendar: int -> Moment) returns (err: Option<Error>)
      modifies this
      ensures ParseCommitLine(line).Err? ==> err == Some(ParseCommitLine(line).error) && State() == old(State())
      ensures ParseCommitLine(line).Ok? ==>
        var c := ParseCommitLine(line).value;
        err.None? && State() == CommitRecorded(old(State()), c, calendar(c.stamp))
    {
      var parsed := ParseCommitLine(line);
      if parsed.Err? {
        return Some(parsed.error);
      }
      var c := parsed.value;
      RecordCommit(c, calendar(c.stamp));
      err := None;
    }

    /** The loop of `_collect_commits_graph`: each line is parsed and recorded until one fails to parse. */
    method RecordAllLines(lines: seq<string>, calendar: int -> Moment) returns (err: Option<Error>)
      modifies this
      ensures (State(), err) == RecordLines(old(State()), lines, calendar)
    {
      ghost var outcome := RecordLines(State(), lines, calendar);
      var i := 0;
      while i < |lines|
        invariant 0 <= i <= |lines|
        invariant outcome == RecordLines(State(), lines[i..], calendar)
      {
        RecordLinesFirst(State(), lines[i..], calendar);
        assert lines[i..][0] == lines[i] && lines[i..][1..] == lines[i + 1..];
        err := RecordLine(lines[i], calendar);
        if err.Some? {
          return;
        }
        i := i + 1;
      }
      assert lines[i..] == [];
      err := None;
    }

    /** Every line of the output counts as a commit before any is parsed. */
    method CountCommitLines(n: nat)
      modifies this`totalCommits
      ensures State() == old(State()).(totals := old(CurrentTotals()).(totalCommits := old(totalCommits) + n))
    {
      totalCommits := totalCommits + n;
    }

    /**
     * `_collect_commits_graph` over the output of `git rev-list`: the commit
     * total grows by the number of lines, then each line is recorded until
     * one fails to parse.
     */
    method CollectCommitsGraph(pipeOut: string, calendar: int -> Moment) returns (r: Result<()>)
      modifies this
      ensures var (s, err) := CommitsGraph(old(State()), pipeOut, calendar);
        State() == s && (r.Ok? <==> err.None?) && (r.Err? ==> err == Some(r.error))
      ensures Valid(old(State())) ==> Valid(State())
    {
      var lines := Split(pipeOut, '\n');
      CountCommitLines(|lines|);
      ghost var start := State();
      assert CommitsGraph(old(State()), pipeOut, calendar) == RecordLines(start, lines, calendar);
      if Valid(old(State())) {
        assert Valid(start);
        RecordLinesKeepsValid(start, lines, calendar);
      }
      var err := RecordAllLines(lines, calendar);
      r := if err.Some? then Err(err.value) else Ok(());
    }
  }
}
