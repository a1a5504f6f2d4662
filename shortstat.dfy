/**
 * The three-state parser of `git log --shortstat --pretty=format:"%at %aN"`
 * output (ShortStatParserState, the three ShortStatState*.decide classes and
 * LogShortStatData._get_modified_counts), and the callback machine that
 * LogShortStatData drives with it, as pure functions.
 *
 * The collector replays the log lines in reverse (oldest commit first). The
 * main result here, RunRenderedLog, says what one replay of a well-formed log
 * does: every commit's diffstat counts reach that commit's own header line,
 * oldest first, and the transition-callback table decides what else fires.
 */
module ShortStat {
  import opened Wrappers
  import opened Text

  datatype State = Initial | CommitInfo | ChangesByCommit

  /** A commit header "<stamp> <author>": `int(line.split(' ')[0])` succeeds. */
  predicate IsStampLine(line: string) { ParseInt(FirstField(line)).Some? }

  /** `re.search('files? changed', line) is not None`. */
  predicate IsDiffstat(line: string)
  {
    Contains(line, "file changed") || Contains(line, "files changed")
  }

  /**
   * The `decide` of the current state: the state the line leads to, or the
   * LogShortStatParserError it raises. A blank line is the empty string.
   */
  function Decide(state: State, line: string): (r: Result<State>)
    ensures r.Err? ==> r.error == ParseError(line) && state != CommitInfo
  {
    match state
    case Initial =>
      if IsStampLine(line) then Ok(CommitInfo)
      else if IsDiffstat(line) then Ok(ChangesByCommit)
      else Err(ParseError(line))
    case CommitInfo =>
      if line == "" then Ok(Initial)
      else if IsDiffstat(line) then Ok(ChangesByCommit)
      else Ok(CommitInfo)
    case ChangesByCommit =>
      if line == "" then Ok(Initial)
      else if IsStampLine(line) then Ok(CommitInfo)
      else Err(ParseError(line))
  }

  /** Every transition Decide can make, and exactly when it raises. */
  lemma DecideCases(state: State, line: string)
    ensures Decide(state, line) == Ok(ChangesByCommit) ==> state != ChangesByCommit && IsDiffstat(line)
    ensures Decide(state, line) == Ok(Initial) ==> state != Initial && line == ""
    ensures Decide(state, line) == Ok(CommitInfo) && state != CommitInfo ==> IsStampLine(line)
    ensures Decide(state, line).Err? <==>
      (state == Initial && !IsStampLine(line) && !IsDiffstat(line)) ||
      (state == ChangesByCommit && line != "" && !IsStampLine(line))
  {
    assert ParseInt("") == None;
  }

  // ---------------------------------------------------------------------------
  // _get_modified_counts

  /** CommitChangesTuple. */
  datatype Counts = Counts(files: nat, inserted: nat, deleted: nat)

  /**
   * `_get_modified_counts(line)`: the numbers of a diffstat line, where the
   * `(+)` or `(-)` marker tells which count a lone second number is. Two
   * numbers without a marker, and a line without numbers, index past the end
   * of the tuple (IndexError).
   */
  function ModifiedCounts(line: string): (r: Result<Counts>)
    ensures r.Ok? ==> |Numbers(line)| >= 1 && r.value.files == Numbers(line)[0]
    ensures r.Err? <==> (|Numbers(line)| == 0 ||
      (|Numbers(line)| == 2 && !Contains(line, "(+)") && !Contains(line, "(-)")))
  {
    var ns := Numbers(line);
    if |ns| == 1 then Ok(Counts(ns[0], 0, 0))
    else if |ns| == 2 && Contains(line, "(+)") then Ok(Counts(ns[0], ns[1], 0))
    else if |ns| == 2 && Contains(line, "(-)") then Ok(Counts(ns[0], 0, ns[1]))
    else if |ns| >= 3 then Ok(Counts(ns[0], ns[1], ns[2]))
    else Err(IndexError(line))
  }

  // ---------------------------------------------------------------------------
  // What git writes: decimal numbers, the diffstat summary and commit headers

  /**
   * The summary line git prints for one commit under `--shortstat`: the file
   * count, then the insertions unless only deletions happened, then the
   * deletions unless only insertions happened; a commit without changed files
   * prints " 0 files changed".
   */
  function DiffstatLine(c: Counts): string
  {
    FilesPart(c) + InsertionsPart(c) + DeletionsPart(c)
  }

  function FilesPart(c: Counts): string
  {
    " " + NatToString(c.files) + (if c.files == 1 then " file changed" else " files changed")
  }

  predicate ShowsInsertions(c: Counts) { c.files > 0 && (c.inserted > 0 || c.deleted == 0) }

  predicate ShowsDeletions(c: Counts) { c.files > 0 && (c.deleted > 0 || c.inserted == 0) }

  function InsertionsPart(c: Counts): string
  {
    if ShowsInsertions(c) then ", " + NatToString(c.inserted) + (if c.inserted == 1 then " insertion(+)" else " insertions(+)")
    else ""
  }

  function DeletionsPart(c: Counts): string
  {
    if ShowsDeletions(c) then ", " + NatToString(c.deleted) + (if c.deleted == 1 then " deletion(-)" else " deletions(-)")
    else ""
  }

  /** git never reports changed lines without a changed file. */
  predicate Reportable(c: Counts) { c.files == 0 ==> c.inserted == 0 && c.deleted == 0 }

  /** Numbers of "<text> <digits><text> ...": the digits of each number in turn. */
  lemma NumbersPiece(lead: string, n: nat, trail: string, rest: string)
    requires forall i :: 0 <= i < |lead| ==> !IsDigit(lead[i])
    requires trail != [] && !IsDigit(trail[0])
    ensures Numbers(lead + NatToString(n) + trail + rest) == [n] + Numbers(trail + rest)
  {
    var ds := NatToString(n);
    var after := trail + rest;
    assert after[0] == trail[0];
    NumbersDigitsThen(ds, after);
    NumbersNoDigits(lead, ds + after);
    ConcatRegroup(lead, ds, trail, rest);
  }

  lemma ConcatRegroup(a: string, b: string, c: string, d: string)
    ensures a + b + c + d == a + (b + (c + d))
  {
  }

  /** Text that lacks a character of `sub` cannot contain `sub`. */
  lemma {:induction false} ContainsHasChar(s: string, sub: string, c: char)
    requires c in sub
    ensures Contains(s, sub) ==> c in s
    decreases |s|
  {
    if StartsWith(s, sub) {
      var k :| 0 <= k < |sub| && sub[k] == c;
      assert s[k] == c;
    } else if Contains(s, sub) {
      ContainsHasChar(s[1..], sub, c);
      var k :| 0 <= k < |s[1..]| && s[1..][k] == c;
      assert s[k + 1] == c;
    }
  }

  lemma NatToStringPlain(n: nat)
    ensures '+' !in NatToString(n) && '-' !in NatToString(n) && ' ' !in NatToString(n)
  {
    var s := NatToString(n);
    assert forall i :: 0 <= i < |s| ==> IsDigit(s[i]);
  }

  predicate DigitFree(s: string) { forall i :: 0 <= i < |s| ==> !IsDigit(s[i]) }

  lemma FileTextsDigitFree()
    ensures DigitFree(" file changed") && DigitFree(" files changed")
  {
  }

  lemma InsertionTextsDigitFree()
    ensures DigitFree(" insertion(+)") && DigitFree(" insertions(+)")
  {
  }

  lemma DeletionTextsDigitFree()
    ensures DigitFree(" deletion(-)") && DigitFree(" deletions(-)")
  {
  }

  lemma NumbersOfDeletions(c: Counts)
    ensures Numbers(DeletionsPart(c)) == if ShowsDeletions(c) then [c.deleted] else []
  {
    var delText := if c.deleted == 1 then " deletion(-)" else " deletions(-)";
    DeletionTextsDigitFree();
    assert DigitFree(delText);
    if ShowsDeletions(c) {
      assert DeletionsPart(c) == ", " + NatToString(c.deleted) + delText + "";
      NumbersPiece(", ", c.deleted, delText, "");
      NumbersNoDigits(delText, "");
    }
  }

  lemma NumbersOfInsertions(c: Counts, rest: string)
    ensures Numbers(InsertionsPart(c) + rest) == (if ShowsInsertions(c) then [c.inserted] else []) + Numbers(rest)
  {
    var insText := if c.inserted == 1 then " insertion(+)" else " insertions(+)";
    InsertionTextsDigitFree();
    assert DigitFree(insText);
    if ShowsInsertions(c) {
      assert InsertionsPart(c) + rest == ", " + NatToString(c.inserted) + insText + rest;
      NumbersPiece(", ", c.inserted, insText, rest);
      NumbersNoDigits(insText, rest);
    } else {
      assert InsertionsPart(c) + rest == rest;
    }
  }

  lemma NumbersOfFiles(c: Counts, rest: string)
    ensures Numbers(FilesPart(c) + rest) == [c.files] + Numbers(rest)
  {
    var fileText := if c.files == 1 then " file changed" else " files changed";
    FileTextsDigitFree();
    assert DigitFree(fileText);
    NumbersPiece(" ", c.files, fileText, rest);
    NumbersNoDigits(fileText, rest);
  }

  /** The numbers of a diffstat line: the file count, then each count git printed. */
  lemma NumbersOfDiffstat(c: Counts)
    ensures Numbers(DiffstatLine(c)) ==
      [c.files] + (if ShowsInsertions(c) then [c.inserted] else []) + (if ShowsDeletions(c) then [c.deleted] else [])
  {
    var f, i, d := FilesPart(c), InsertionsPart(c), DeletionsPart(c);
    var ni: seq<nat> := if ShowsInsertions(c) then [c.inserted] else [];
    var nd: seq<nat> := if ShowsDeletions(c) then [c.deleted] else [];
    assert DiffstatLine(c) == f + (i + d);
    calc {
      Numbers(DiffstatLine(c));
      Numbers(f + (i + d));
      { NumbersOfFiles(c, i + d); }
      [c.files] + Numbers(i + d);
      { NumbersOfInsertions(c, d); }
      [c.files] + (ni + Numbers(d));
      { NumbersOfDeletions(c); }
      [c.files] + (ni + nd);
      { NumbersRegroup([c.files], ni, nd); }
      [c.files] + ni + nd;
    }
  }

  lemma NumbersRegroup(a: seq<nat>, b: seq<nat>, c: seq<nat>)
    ensures a + (b + c) == a + b + c
  {
  }

  /** The printed insertions carry the "(+)" marker. */
  lemma InsertionsShowPlus(c: Counts)
    requires ShowsInsertions(c)
    ensures Contains(InsertionsPart(c), "(+)")
  {
    var insText := if c.inserted == 1 then " insertion(+)" else " insertions(+)";
    ContainsAt(insText, "(+)", |insText| - 3);
    ContainsInConcat(", " + NatToString(c.inserted), insText, "(+)");
  }

  /** The printed deletions carry the "(-)" marker. */
  lemma DeletionsShowMinus(c: Counts)
    requires ShowsDeletions(c)
    ensures Contains(DeletionsPart(c), "(-)")
  {
    var delText := if c.deleted == 1 then " deletion(-)" else " deletions(-)";
    ContainsAt(delText, "(-)", |delText| - 3);
    ContainsInConcat(", " + NatToString(c.deleted), delText, "(-)");
  }

  /** No '+' in the file count or the deletions. */
  lemma FilesAndDeletionsPlusFree(c: Counts)
    ensures '+' !in FilesPart(c) && '+' !in DeletionsPart(c)
  {
    NatToStringPlain(c.files);
    NatToStringPlain(c.deleted);
    assert '+' !in " file changed" && '+' !in " files changed";
    assert '+' !in " deletion(-)" && '+' !in " deletions(-)";
  }

  /** The "(+)" marker is there exactly when git printed the insertions. */
  lemma DiffstatPlusMarker(c: Counts)
    ensures Contains(DiffstatLine(c), "(+)") <==> ShowsInsertions(c)
  {
    var f, i, d := FilesPart(c), InsertionsPart(c), DeletionsPart(c);
    assert DiffstatLine(c) == f + (i + d);
    if ShowsInsertions(c) {
      InsertionsShowPlus(c);
      ContainsPrefix(i, d, "(+)");
      ContainsInConcat(f, i + d, "(+)");
    } else {
      FilesAndDeletionsPlusFree(c);
      assert i == "";
      assert '+' !in f + (i + d);
      ContainsHasChar(f + (i + d), "(+)", '+');
    }
  }

  /** Without insertions, the "(-)" marker is there exactly when git printed the deletions. */
  lemma DiffstatMinusMarker(c: Counts)
    ensures ShowsDeletions(c) ==> Contains(DiffstatLine(c), "(-)")
  {
    if ShowsDeletions(c) {
      DeletionsShowMinus(c);
      ContainsInConcat(FilesPart(c) + InsertionsPart(c), DeletionsPart(c), "(-)");
    }
  }

  /**
   * `_get_modified_counts` reads back exactly the counts git wrote, whichever
   * of the insertions and deletions git chose to print.
   */
  lemma ModifiedCountsOfDiffstat(c: Counts)
    requires Reportable(c)
    ensures ModifiedCounts(DiffstatLine(c)) == Ok(c)
  {
    var line := DiffstatLine(c);
    NumbersOfDiffstat(c);
    DiffstatPlusMarker(c);
    DiffstatMinusMarker(c);
    var ns := Numbers(line);
    if ShowsInsertions(c) && ShowsDeletions(c) {
      assert ns == [c.files, c.inserted, c.deleted];
    } else if ShowsInsertions(c) {
      assert ns == [c.files, c.inserted] && c.deleted == 0;
    } else if ShowsDeletions(c) {
      assert ns == [c.files, c.deleted] && c.inserted == 0;
    } else {
      assert ns == [c.files] && c.inserted == 0 && c.deleted == 0;
    }
  }

  lemma ContainsPrefix(a: string, b: string, sub: string)
    requires Contains(a, sub)
    ensures Contains(a + b, sub)
    decreases |a|
  {
    if StartsWith(a, sub) {
      assert (a + b)[..|sub|] == a[..|sub|];
    } else {
      assert (a + b)[1..] == a[1..] + b;
      ContainsPrefix(a[1..], b, sub);
    }
  }

  /** A diffstat line is never taken for a commit header, nor for a blank line. */
  lemma DiffstatLineKind(c: Counts)
    ensures IsDiffstat(DiffstatLine(c)) && !IsStampLine(DiffstatLine(c)) && DiffstatLine(c) != ""
  {
    var line := DiffstatLine(c);
    var fileText := if c.files == 1 then " file changed" else " files changed";
    var head := " " + NatToString(c.files);
    var tail := line[|head| + |fileText|..];
    assert line == head + fileText + tail;
    ContainsAt(fileText, fileText[1..], 1);
    ContainsInConcat(head, fileText, fileText[1..]);
    ContainsPrefix(head + fileText, tail, fileText[1..]);
    var f := FirstField(line);
    assert line[0] == ' ';
    assert line[..|f|] == f;
    assert |f| == 0;
  }

  /** The header "%at %aN" git prints for a commit. */
  function HeaderLine(stamp: nat, author: string): string
  {
    StampKey(NatToString(stamp), author)
  }

  lemma HeaderLineKind(stamp: nat, author: string)
    ensures IsStampLine(HeaderLine(stamp, author)) && HeaderLine(stamp, author) != ""
    ensures FirstField(HeaderLine(stamp, author)) == NatToString(stamp)
    ensures AfterFirstField(HeaderLine(stamp, author)) == author
  {
    NatToStringPlain(stamp);
    StampKeyFirstField(NatToString(stamp), author);
  }

  // ---------------------------------------------------------------------------
  // The transition-callback machine

  /** The methods `_process_in_state` can hold. */
  datatype Callback =
    | DoNothing
    | SetChangesByCommit            // _set_changes_by_commit
    | UpdateLinesModified           // _update_lines_modified
    | UpdateLinesModifiedByAuthor   // _update_lines_modified_by_author
    | UpdateMergeCommit             // _update_merge_commit

  /** `_process_in_state`: the callback for each (old state, new state). */
  type Table = map<(State, State), Callback>

  function Lookup(table: Table, from: State, to: State): Callback
  {
    if (from, to) in table then table[(from, to)] else DoNothing
  }

  /** What a fired callback hands to the accumulators. */
  datatype Event =
    | Change(header: string, counts: Counts)  // a commit header with its diffstat
    | MergeCommit(header: string)             // a header followed by no diffstat

  datatype Step = Step(from: State, to: State, line: string)

  /** Parser state plus `_changes_by_commit`, the diffstat waiting for its header. */
  datatype Machine = Machine(state: State, pending: Option<Counts>)

  datatype Trace = Trace(machine: Machine, steps: seq<Step>, events: seq<Event>)

  /**
   * `process_current_state(repository, line)` after a toggle: the new
   * pending counts and what reaches the accumulators. Unpacking a missing
   * `_changes_by_commit` (None) raises.
   */
  function Fire(cb: Callback, pending: Option<Counts>, line: string): Result<(Option<Counts>, seq<Event>)>
  {
    match cb
    case DoNothing => Ok((pending, []))
    case SetChangesByCommit =>
      (match ModifiedCounts(line)
       case Ok(c) => Ok((Some(c), []))
       case Err(e) => Err(e))
    case UpdateMergeCommit => Ok((pending, [MergeCommit(line)]))
    case _ =>
      if pending.None? then Err(TypeError("cannot unpack None"))
      else Ok((pending, [Change(line, pending.value)]))
  }

  /** One iteration of the collector's loop: `decide(line)`, then the callback. */
  function Advance(table: Table, t: Trace, line: string): (r: Result<Trace>)
    ensures r.Ok? ==> r.value.steps == t.steps + [Step(t.machine.state, r.value.machine.state, line)]
    ensures r.Ok? ==> Decide(t.machine.state, line) == Ok(r.value.machine.state)
  {
    match Decide(t.machine.state, line)
    case Err(e) => Err(e)
    case Ok(next) =>
      match Fire(Lookup(table, t.machine.state, next), t.machine.pending, line)
      case Err(e) => Err(e)
      case Ok(fired) =>
        Ok(Trace(Machine(next, fired.0), t.steps + [Step(t.machine.state, next, line)], t.events + fired.1))
  }

  /** A pass starts in Initial; `_changes_by_commit` keeps whatever the previous pass left. */
  function Begin(pending: Option<Counts>): Trace
  {
    Trace(Machine(Initial, pending), [], [])
  }

  /** The machine after the given lines, in the order they are fed to it. */
  function Run(table: Table, pending: Option<Counts>, lines: seq<string>): (r: Result<Trace>)
    ensures r.Ok? ==> |r.value.steps| == |lines|
    ensures r.Ok? ==> forall i :: 0 <= i < |lines| ==> r.value.steps[i].line == lines[i]
    decreases |lines|
  {
    if lines == [] then Ok(Begin(pending))
    else
      var init := lines[..|lines| - 1];
      match Run(table, pending, init)
      case Err(e) => Err(e)
      case Ok(t) =>
        var r := Advance(table, t, lines[|lines| - 1]);
        if r.Ok? then
          StepLinesSnoc(t.steps, lines, Step(t.machine.state, r.value.machine.state, lines[|lines| - 1]));
          r
        else r
  }

  /** Appending the step of the last line keeps each step on its own line. */
  lemma StepLinesSnoc(steps: seq<Step>, lines: seq<string>, s: Step)
    requires |lines| > 0 && |steps| == |lines| - 1 && s.line == lines[|lines| - 1]
    requires forall i :: 0 <= i < |steps| ==> steps[i].line == lines[..|lines| - 1][i]
    ensures forall i :: 0 <= i < |lines| ==> (steps + [s])[i].line == lines[i]
  {
  }

  /** A raised error ends the pass: no later line undoes it. */
  lemma {:induction false} RunErrSticky(table: Table, p0: Option<Counts>, lines: seq<string>, more: seq<string>)
    requires Run(table, p0, lines).Err?
    ensures Run(table, p0, lines + more).Err?
    decreases |more|
  {
    if more != [] {
      var init := more[..|more| - 1];
      RunErrSticky(table, p0, lines, init);
      assert (lines + more)[..|lines + more| - 1] == lines + init;
    } else {
      assert lines + more == lines;
    }
  }

  /** Consecutive steps chain: each step starts where the previous one ended. */
  lemma {:induction false} RunChains(table: Table, p0: Option<Counts>, lines: seq<string>)
    requires Run(table, p0, lines).Ok?
    ensures var t := Run(table, p0, lines).value;
      (|lines| == 0 ==> t.machine.state == Initial) &&
      (|lines| > 0 ==> t.steps[0].from == Initial && t.steps[|lines| - 1].to == t.machine.state) &&
      forall i :: 0 < i < |lines| ==> t.steps[i].from == t.steps[i - 1].to
    decreases |lines|
  {
    if lines != [] {
      var prefix := lines[..|lines| - 1];
      RunChains(table, p0, prefix);
      var t0 := Run(table, p0, prefix).value;
      var t := Run(table, p0, lines).value;
      assert t.steps == t0.steps + [Step(t0.machine.state, t.machine.state, lines[|lines| - 1])];
    }
  }

  // ---------------------------------------------------------------------------
  // Well-formed logs

  /** One commit as the log shows it: its header and, unless it changed nothing, its diffstat. */
  datatype LogCommit = LogCommit(header: string, stat: Option<string>)

  predicate WellFormedCommit(c: LogCommit)
  {
    && IsStampLine(c.header) && !IsDiffstat(c.header)
    && (c.stat.Some? ==> IsDiffstat(c.stat.value) && !IsStampLine(c.stat.value) && ModifiedCounts(c.stat.value).Ok?)
  }

  function CommitLines(c: LogCommit): seq<string>
  {
    [c.header] + (if c.stat.Some? then [c.stat.value] else [])
  }

  /**
   * The log git writes, newest commit first: each commit's lines, and a blank
   * line after a diffstat that another commit follows.
   */
  function RenderLog(cs: seq<LogCommit>): seq<string>
    requires |cs| >= 1
  {
    if |cs| == 1 then CommitLines(cs[0])
    else CommitLines(cs[0]) + (if cs[0].stat.Some? then [""] else []) + RenderLog(cs[1..])
  }

  /**
   * The steps the replay of a rendered log takes, oldest commit first: the
   * diffstat enters ChangesByCommit and its header leaves to CommitInfo; a
   * header without diffstat keeps CommitInfo; the blank line goes to Initial.
   */
  function ExpectedSteps(cs: seq<LogCommit>): seq<Step>
    requires |cs| >= 1
  {
    var c := cs[0];
    if |cs| == 1 then
      if c.stat.Some? then [Step(Initial, ChangesByCommit, c.stat.value), Step(ChangesByCommit, CommitInfo, c.header)]
      else [Step(Initial, CommitInfo, c.header)]
    else
      ExpectedSteps(cs[1..]) +
      if c.stat.Some? then
        [Step(CommitInfo, Initial, ""), Step(Initial, ChangesByCommit, c.stat.value), Step(ChangesByCommit, CommitInfo, c.header)]
      else [Step(CommitInfo, CommitInfo, c.header)]
  }

  function StatCounts(c: LogCommit): Counts
    requires c.stat.Some? && ModifiedCounts(c.stat.value).Ok?
  {
    ModifiedCounts(c.stat.value).value
  }

  /**
   * The events of the replay, oldest commit first: a Change for each commit
   * with a diffstat, carrying that commit's counts, and, when the table counts
   * merges, a MergeCommit for each later commit without one. The oldest commit
   * without a diffstat enters CommitInfo from Initial and fires nothing.
   */
  function ExpectedEvents(cs: seq<LogCommit>, merges: bool): seq<Event>
    requires |cs| >= 1 && forall i :: 0 <= i < |cs| ==> WellFormedCommit(cs[i])
  {
    assert WellFormedCommit(cs[0]);
    if |cs| == 1 then NewestEvents(cs, merges)
    else
      assert forall i :: 0 <= i < |cs| - 1 ==> cs[1..][i] == cs[i + 1];
      ExpectedEvents(cs[1..], merges) + NewestEvents(cs, merges)
  }

  /** What the header of the newest commit of `cs` fires. */
  function NewestEvents(cs: seq<LogCommit>, merges: bool): (evs: seq<Event>)
    requires |cs| >= 1 && WellFormedCommit(cs[0])
    ensures |evs| <= 1 && forall i :: 0 <= i < |evs| ==> evs[i].header == cs[0].header
  {
    var c := cs[0];
    if c.stat.Some? then [Change(c.header, StatCounts(c))]
    else if merges && |cs| > 1 then [MergeCommit(c.header)]
    else []
  }

  /** Both tables of LogShortStatData share this shape; they differ on (CommitInfo, CommitInfo). */
  predicate PassTable(table: Table)
  {
    && Lookup(table, Initial, ChangesByCommit) == SetChangesByCommit
    && Lookup(table, CommitInfo, ChangesByCommit) == SetChangesByCommit
    && Lookup(table, ChangesByCommit, CommitInfo) in {UpdateLinesModified, UpdateLinesModifiedByAuthor}
    && Lookup(table, Initial, CommitInfo) == DoNothing
    && Lookup(table, CommitInfo, Initial) == DoNothing
    && Lookup(table, CommitInfo, CommitInfo) in {DoNothing, UpdateMergeCommit}
  }

  lemma RunSnoc(table: Table, p0: Option<Counts>, lines: seq<string>, line: string)
    requires Run(table, p0, lines).Ok?
    ensures Run(table, p0, lines + [line]) == Advance(table, Run(table, p0, lines).value, line)
  {
    assert (lines + [line])[..|lines|] == lines;
  }

  /** One step of the machine, given what `decide` and the callback return. */
  lemma AdvanceBy(table: Table, t: Trace, line: string, next: State, fired: (Option<Counts>, seq<Event>))
    requires Decide(t.machine.state, line) == Ok(next)
    requires Fire(Lookup(table, t.machine.state, next), t.machine.pending, line) == Ok(fired)
    ensures Advance(table, t, line) ==
      Ok(Trace(Machine(next, fired.0), t.steps + [Step(t.machine.state, next, line)], t.events + fired.1))
  {
  }

  lemma AdvanceBlank(table: Table, t: Trace)
    requires PassTable(table) && t.machine.state == CommitInfo
    ensures Advance(table, t, "") ==
      Ok(Trace(Machine(Initial, t.machine.pending), t.steps + [Step(CommitInfo, Initial, "")], t.events))
  {
    AdvanceBy(table, t, "", Initial, (t.machine.pending, []));
    assert t.events + [] == t.events;
  }

  lemma AdvanceStat(table: Table, t: Trace, stat: string)
    requires PassTable(table) && t.machine.state == Initial
    requires IsDiffstat(stat) && !IsStampLine(stat) && ModifiedCounts(stat).Ok?
    ensures Advance(table, t, stat) ==
      Ok(Trace(Machine(ChangesByCommit, Some(ModifiedCounts(stat).value)),
               t.steps + [Step(Initial, ChangesByCommit, stat)], t.events))
  {
    var c := ModifiedCounts(stat).value;
    AdvanceBy(table, t, stat, ChangesByCommit, (Some(c), []));
    assert t.events + [] == t.events;
  }

  lemma AdvanceHeader(table: Table, t: Trace, header: string)
    requires PassTable(table) && t.machine.state == ChangesByCommit && t.machine.pending.Some?
    requires IsStampLine(header)
    ensures Advance(table, t, header) ==
      Ok(Trace(Machine(CommitInfo, t.machine.pending),
               t.steps + [Step(ChangesByCommit, CommitInfo, header)],
               t.events + [Change(header, t.machine.pending.value)]))
  {
    assert ParseInt("") == None;
    AdvanceBy(table, t, header, CommitInfo, (t.machine.pending, [Change(header, t.machine.pending.value)]));
  }

  lemma AdvanceBareHeader(table: Table, t: Trace, header: string)
    requires PassTable(table) && t.machine.state in {Initial, CommitInfo}
    requires IsStampLine(header) && !IsDiffstat(header)
    ensures Advance(table, t, header) ==
      Ok(Trace(Machine(CommitInfo, t.machine.pending),
               t.steps + [Step(t.machine.state, CommitInfo, header)],
               t.events + (if t.machine.state == CommitInfo && Lookup(table, CommitInfo, CommitInfo) == UpdateMergeCommit
                           then [MergeCommit(header)] else [])))
  {
    assert ParseInt("") == None;
    var evs: seq<Event> := if t.machine.state == CommitInfo && Lookup(table, CommitInfo, CommitInfo) == UpdateMergeCommit
                           then [MergeCommit(header)] else [];
    assert Decide(t.machine.state, header) == Ok(CommitInfo);
    AdvanceBy(table, t, header, CommitInfo, (t.machine.pending, evs));
  }

  /** The one commit at the oldest end of the log. */
  lemma RunOldestCommit(table: Table, p0: Option<Counts>, c: LogCommit)
    requires PassTable(table) && WellFormedCommit(c)
    ensures Run(table, p0, Reversed(RenderLog([c]))).Ok?
    ensures var t := Run(table, p0, Reversed(RenderLog([c]))).value;
      && t.machine.state == CommitInfo
      && t.steps == ExpectedSteps([c])
      && t.events == ExpectedEvents([c], Lookup(table, CommitInfo, CommitInfo) == UpdateMergeCommit)
      && (c.stat.Some? ==> t.machine.pending.Some?)
  {
    OldestLines(c);
    OldestExpected(c, Lookup(table, CommitInfo, CommitInfo) == UpdateMergeCommit);
    assert Run(table, p0, []) == Ok(Begin(p0));
    if c.stat.Some? {
      RunSnoc(table, p0, [], c.stat.value);
      AdvanceStat(table, Begin(p0), c.stat.value);
      var t1 := Run(table, p0, [c.stat.value]).value;
      RunSnoc(table, p0, [c.stat.value], c.header);
      AdvanceHeader(table, t1, c.header);
    } else {
      RunSnoc(table, p0, [], c.header);
      AdvanceBareHeader(table, Begin(p0), c.header);
    }
  }

  /** What a single commit is expected to do, in the shapes the steps of the machine build. */
  lemma OldestExpected(c: LogCommit, merges: bool)
    requires WellFormedCommit(c)
    ensures c.stat.Some? ==>
      ExpectedSteps([c]) == [] + [Step(Initial, ChangesByCommit, c.stat.value)] + [Step(ChangesByCommit, CommitInfo, c.header)]
    ensures c.stat.Some? ==> ExpectedEvents([c], merges) == [] + [Change(c.header, StatCounts(c))]
    ensures c.stat.None? ==> ExpectedSteps([c]) == [] + [Step(Initial, CommitInfo, c.header)]
    ensures c.stat.None? ==> ExpectedEvents([c], merges) == [] + []
  {
    assert [c][0] == c;
  }

  /** The reversed lines of a single commit: its diffstat, if any, then its header. */
  lemma OldestLines(c: LogCommit)
    ensures Reversed(RenderLog([c])) == if c.stat.Some? then [c.stat.value] + [c.header] else [] + [c.header]
    ensures [] + [c.header] == [c.header]
  {
  }

  /** The blank line and the diffstat of a newer commit: Initial, then ChangesByCommit holding its counts. */
  lemma RunBlankStat(table: Table, p0: Option<Counts>, before: seq<string>, stat: string)
    requires PassTable(table)
    requires IsDiffstat(stat) && !IsStampLine(stat) && ModifiedCounts(stat).Ok?
    requires Run(table, p0, before).Ok? && Run(table, p0, before).value.machine.state == CommitInfo
    ensures var t0 := Run(table, p0, before).value;
      Run(table, p0, before + [""] + [stat]) ==
      Ok(Trace(Machine(ChangesByCommit, Some(ModifiedCounts(stat).value)),
               t0.steps + [Step(CommitInfo, Initial, "")] + [Step(Initial, ChangesByCommit, stat)],
               t0.events))
  {
    var t0 := Run(table, p0, before).value;
    RunSnoc(table, p0, before, "");
    AdvanceBlank(table, t0);
    var t1 := Trace(Machine(Initial, t0.machine.pending), t0.steps + [Step(CommitInfo, Initial, "")], t0.events);
    RunSnoc(table, p0, before + [""], stat);
    AdvanceStat(table, t1, stat);
  }

  lemma AppendThree<T>(xs: seq<T>, a: T, b: T, c: T)
    ensures xs + [a] + [b] + [c] == xs + [a, b, c]
  {
  }

  /** A newer commit with a diffstat: the blank line, the diffstat, then the header. */
  lemma RunNewerStat(table: Table, p0: Option<Counts>, before: seq<string>, header: string, stat: string)
    requires PassTable(table) && IsStampLine(header)
    requires IsDiffstat(stat) && !IsStampLine(stat) && ModifiedCounts(stat).Ok?
    requires Run(table, p0, before).Ok? && Run(table, p0, before).value.machine.state == CommitInfo
    ensures var t0 := Run(table, p0, before).value;
      Run(table, p0, before + ["", stat, header]) ==
      Ok(Trace(Machine(CommitInfo, Some(ModifiedCounts(stat).value)),
               t0.steps + [Step(CommitInfo, Initial, ""), Step(Initial, ChangesByCommit, stat), Step(ChangesByCommit, CommitInfo, header)],
               t0.events + [Change(header, ModifiedCounts(stat).value)]))
  {
    var t0 := Run(table, p0, before).value;
    var l2 := before + [""] + [stat];
    AppendThree(before, "", stat, header);
    AppendThree(t0.steps, Step(CommitInfo, Initial, ""), Step(Initial, ChangesByCommit, stat), Step(ChangesByCommit, CommitInfo, header));
    RunBlankStat(table, p0, before, stat);
    var t2 := Run(table, p0, l2).value;
    RunSnoc(table, p0, l2, header);
    AdvanceHeader(table, t2, header);
  }

  /** A newer commit without a diffstat: its header alone. */
  lemma RunNewerBare(table: Table, p0: Option<Counts>, before: seq<string>, header: string)
    requires PassTable(table) && IsStampLine(header) && !IsDiffstat(header)
    requires Run(table, p0, before).Ok? && Run(table, p0, before).value.machine.state == CommitInfo
    ensures var t0 := Run(table, p0, before).value;
      Run(table, p0, before + [header]) ==
      Ok(Trace(Machine(CommitInfo, t0.machine.pending),
               t0.steps + [Step(CommitInfo, CommitInfo, header)],
               t0.events + (if Lookup(table, CommitInfo, CommitInfo) == UpdateMergeCommit then [MergeCommit(header)] else [])))
  {
    RunSnoc(table, p0, before, header);
    AdvanceBareHeader(table, Run(table, p0, before).value, header);
  }

  /** Some commit of the log shows a diffstat. */
  predicate AnyStat(cs: seq<LogCommit>)
  {
    exists i :: 0 <= i < |cs| && cs[i].stat.Some?
  }

  /** The reversed log of several commits: the older ones' lines, then the newest commit's. */
  lemma ReversedRenderLog(cs: seq<LogCommit>)
    requires |cs| > 1
    ensures Reversed(RenderLog(cs)) == Reversed(RenderLog(cs[1..])) +
      (if cs[0].stat.Some? then ["", cs[0].stat.value, cs[0].header] else [cs[0].header])
  {
    var c := cs[0];
    var sep: seq<string> := if c.stat.Some? then [""] else [];
    ReversedConcat(CommitLines(c) + sep, RenderLog(cs[1..]));
    ReversedConcat(CommitLines(c), sep);
    assert RenderLog(cs) == CommitLines(c) + sep + RenderLog(cs[1..]);
    if c.stat.Some? {
      assert Reversed(sep) + Reversed(CommitLines(c)) == ["", c.stat.value, c.header];
    } else {
      assert Reversed(sep) + Reversed(CommitLines(c)) == [c.header];
    }
  }

  /**
   * What replaying a well-formed log in reverse yields: no error, CommitInfo
   * holding the newest diffstat, exactly ExpectedSteps, and every commit's own
   * counts handed to its own header.
   */
  predicate ReplaysAsExpected(table: Table, p0: Option<Counts>, cs: seq<LogCommit>)
    requires |cs| >= 1 && forall i :: 0 <= i < |cs| ==> WellFormedCommit(cs[i])
  {
    && Run(table, p0, Reversed(RenderLog(cs))).Ok?
    && var t := Run(table, p0, Reversed(RenderLog(cs))).value;
    && t.machine.state == CommitInfo
    && t.steps == ExpectedSteps(cs)
    && t.events == ExpectedEvents(cs, Lookup(table, CommitInfo, CommitInfo) == UpdateMergeCommit)
    && (AnyStat(cs) ==> t.machine.pending.Some?)
  }

  /** The tail of a well-formed log is well formed. */
  lemma TailWellFormed(cs: seq<LogCommit>)
    requires |cs| > 1 && forall i :: 0 <= i < |cs| ==> WellFormedCommit(cs[i])
    ensures WellFormedCommit(cs[0]) && forall i :: 0 <= i < |cs[1..]| ==> WellFormedCommit(cs[1..][i])
  {
    forall i | 0 <= i < |cs[1..]| ensures WellFormedCommit(cs[1..][i]) { assert cs[1..][i] == cs[i + 1]; }
  }

  /** One newer commit with a diffstat on top of a log that replays as expected. */
  lemma ReplayNewerStat(table: Table, p0: Option<Counts>, cs: seq<LogCommit>)
    requires |cs| > 1 && forall i :: 0 <= i < |cs| ==> WellFormedCommit(cs[i])
    requires PassTable(table) && cs[0].stat.Some?
    requires ReplaysAsExpected(table, p0, cs[1..])
    ensures ReplaysAsExpected(table, p0, cs)
  {
    var c := cs[0];
    ReversedRenderLog(cs);
    RunNewerStat(table, p0, Reversed(RenderLog(cs[1..])), c.header, c.stat.value);
  }

  /** One newer commit without a diffstat on top of a log that replays as expected. */
  lemma ReplayNewerBare(table: Table, p0: Option<Counts>, cs: seq<LogCommit>)
    requires |cs| > 1 && forall i :: 0 <= i < |cs| ==> WellFormedCommit(cs[i])
    requires PassTable(table) && cs[0].stat.None?
    requires ReplaysAsExpected(table, p0, cs[1..])
    ensures ReplaysAsExpected(table, p0, cs)
  {
    var c := cs[0];
    ReversedRenderLog(cs);
    AnyStatTail(cs);
    RunNewerBare(table, p0, Reversed(RenderLog(cs[1..])), c.header);
  }

  /** A diffstat in a log whose newest commit has none is in the older commits. */
  lemma AnyStatTail(cs: seq<LogCommit>)
    requires |cs| > 1 && cs[0].stat.None?
    ensures AnyStat(cs) ==> AnyStat(cs[1..])
  {
    if AnyStat(cs) {
      var i :| 0 <= i < |cs| && cs[i].stat.Some?;
      assert cs[1..][i - 1].stat.Some?;
    }
  }

  /** Replaying a well-formed log in reverse yields what ReplaysAsExpected describes. */
  lemma {:induction false} RunRenderedLog(table: Table, p0: Option<Counts>, cs: seq<LogCommit>)
    requires |cs| >= 1 && forall i :: 0 <= i < |cs| ==> WellFormedCommit(cs[i])
    requires PassTable(table)
    ensures ReplaysAsExpected(table, p0, cs)
    decreases |cs|
  {
    if |cs| == 1 {
      assert WellFormedCommit(cs[0]);
      assert cs == [cs[0]];
      RunOldestCommit(table, p0, cs[0]);
    } else {
      TailWellFormed(cs);
      RunRenderedLog(table, p0, cs[1..]);
      if cs[0].stat.Some? {
        ReplayNewerStat(table, p0, cs);
      } else {
        ReplayNewerBare(table, p0, cs);
      }
    }
  }

  /**
   * The order the reversed replay follows when the oldest commit has a
   * diffstat: Initial is always left for ChangesByCommit, ChangesByCommit
   * always for CommitInfo, and CommitInfo never for ChangesByCommit.
   */
  lemma {:induction false} ExpectedStepsOrder(cs: seq<LogCommit>)
    requires |cs| >= 1 && cs[|cs| - 1].stat.Some?
    ensures forall s :: s in ExpectedSteps(cs) ==>
      && (s.from == Initial ==> s.to == ChangesByCommit)
      && (s.from == ChangesByCommit ==> s.to == CommitInfo)
      && (s.from == CommitInfo ==> s.to in {Initial, CommitInfo})
    decreases |cs|
  {
    if |cs| > 1 {
      assert cs[1..][|cs[1..]| - 1] == cs[|cs| - 1];
      ExpectedStepsOrder(cs[1..]);
    }
  }
}
