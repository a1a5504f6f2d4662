# gitstats2 history extraction, modelled in Dafny

This project models the data-collection engine of gitstats2, found in
`gitstats2_collect_data.py`. The engine reads the output of several git
commands and folds it, line by line, into dictionaries of statistics. The
model covers these parts:

- **Shortstat parser** (`shortstat.dfy`). `git log --shortstat --pretty="%at %aN"`
  output is replayed in reverse through the three-state machine Initial /
  CommitInfo / ChangesByCommit. Each line is classified as a commit header, a
  diffstat line or a blank line. The callback registered for the pair
  (old state, new state) fires on the line that caused the transition.
  `_get_modified_counts` is modelled together with git's rendering of a
  diffstat line, so that the two can be proved to round-trip. The machine is
  pure here: `Run` replays a list of lines and returns the steps taken and
  the events the callbacks emit.
- **The line accumulators** (`logshortstat.dfy`). The class `LogShortStatData`
  keeps the source's fields: the current state, the pending
  `_changes_by_commit`, the callback table `_process_in_state`, and the ten
  dictionaries (`total_lines`, `changes_by_date`, the month and year maps,
  `changes_by_date_by_author` and the per-author counters). Every
  `_update_*` callback is a method. Each method is proved against a pure
  function of the dictionaries (`Accumulated`). The two passes
  (`_collect_lines_modified`, `_collect_lines_modified_by_author`) are loops
  over the reversed lines. They are proved equal to `Run` followed by a fold
  of its events. A rendered git log is then followed end to end: the model
  computes what each pass adds to the totals and to each author.
- **Tags** (`tags.dfy`). `_collect_tags_info` orders the tags ascending by
  (date string, tag name). It then walks them, asking for each the
  `git shortlog -s` of its range, which excludes the previous non-empty
  tag. The shortlog output is an oracle function, and the per-author counts
  are folded into the tag's record.
- **Files** (`files.dfy`). `GitFilesStatistics` covers:
  - `_add_ext_blob`, with its extension rule and submodule skip;
  - `_update_extensions`;
  - `_collect_files`;
  - `_update_files_by_stamp` and `_update_lines_by_date_by_author`, with
    their deltas between consecutive revisions;
  - `_collect_revlist`.
- **The parallel helpers** (`parallel.dfy`). `GitStatisticsParallel` is
  modelled as a sequential, order-preserving map and a `Counter` sum. The
  module also covers `file_tree_by_revision` and `add_time_files_commit`.
- **Contribution activity** (`activity.dfy`). `GitContributionActivity` keeps
  the source's twenty fields. It has one method per `_update_*` function and
  `_collect_commits_graph` as a loop over the commit lines. An invariant
  (`Valid`) states:
  - the busiest and peak counters are the maxima of their histograms;
  - the month and year totals are the sums of their per-author maps;
  - the first active days are the least of the active days.
- **Authors** (`authors.dfy`). `GitStatisticsData` holds the cross-repository
  merge (`_update_and_accumulate_from`) and `get_authors`: a stable sort by
  commits, descending, and then a slice.
- **Ranges** (`ranges.dfy`): `get_prefixed_path`, `get_commit_range` and
  `get_log_range`.
- **String helpers** (`text.dfy`) model the Python string operations the
  engine relies on:
  - `str.split(sep)` and `str.split()`;
  - `re.split(r'\s+', s, n)`, `re.findall(r'\d+', s)`;
  - `find`, `rfind`, `strip`, `rstrip`, `int()`;
  - the lexicographic order `<` of strings;
  - the composite key `"<stamp> <repository>"`.

Some inputs are parameters of the model rather than part of it:

- The output of every git command is a string parameter, or an oracle
  function from a revision or a file to that output.
- `datetime.fromtimestamp` and `strftime` are an oracle from the stamp to the
  calendar fields the code reads: hour, weekday, month, year, `%Y-%m`, `%Y-%W`
  and `%Y-%m-%d`.

Python exceptions are values of `Error`: `ParseError`, `IndexError`,
`ValueError`, `KeyError` and `TypeError`. A method that raises returns the
error and stops where the source stops. Where a contract describes the state
after an error, it is the state as far as the source got; the contracts that
leave that state unstated are listed under "Left out".

## Model

Source cells are lines of `gitstats2_collect_data.py` unless they name a test file.

| member | source | states |
|---|---|---|
| Ranges.PrefixedPath | gitstats2_collect_data.py:216-220 | empty exactly for an empty sub-directory; otherwise `-- ` followed by the sub-directory |
| Ranges.CommitRange | gitstats2_collect_data.py:228-233 | the default range when no end is configured; the end alone with `end_only` or without a begin; otherwise `begin..end` |
| Ranges.LogRange | gitstats2_collect_data.py:222-226 | the commit range when no start date is configured; otherwise `--since="<date>" ` followed by the quoted commit range |
| Ranges.RangeWithoutEnd | gitstats2_collect_data.py:222-233 | with neither an end nor a start date, the log range is the default range |
| Ranges.EndOnlyIgnoresBegin | gitstats2_collect_data.py:228-233 | with `end_only` the configured begin has no effect on the range |
| Text.Find | gitstats2_collect_data.py:608 | `find`: -1 exactly when the character is absent, otherwise the index of its first occurrence |
| Text.RFind | gitstats2_collect_data.py:609 | `rfind`: -1 exactly when the character is absent, otherwise the index of its last occurrence |
| Text.Split | gitstats2_collect_data.py:113 | `str.split(sep)`: at least one piece, no piece holds the separator, the pieces joined back give the input, and a single piece exactly when the separator is absent |
| Text.SplitJoin | gitstats2_collect_data.py:349 | splitting separator-free pieces joined by the separator gives the pieces back |
| Text.FirstField | gitstats2_collect_data.py:155 | `line.split(' ')[0]`: a blank-free prefix of the line, shorter than the line exactly when the line holds a blank, and then followed by a blank |
| Text.AfterFirstField | gitstats2_collect_data.py:435 | `' '.join(line.split(' ')[1:])`: the line is the first field, a blank and this rest; "" when the line has no blank |
| Text.SplitHeadPrefix | gitstats2_collect_data.py:155 | the first piece of a split is a prefix, shorter than the input exactly when the separator occurs, and then followed by it |
| Text.StampKeyInjective | gitstats2_collect_data.py:403 | for blank-free stamps, distinct (stamp, repository) pairs never share a composite key |
| Text.StampKeyFirstField | gitstats2_collect_data.py:403 | the first blank-separated field of a composite key is the stamp and the rest is the repository |
| Text.StampKeyFirstWord | gitstats2_collect_data.py:1024 | `stamp_key.split()[0]` gives the stamp back |
| Text.SplitRuns | gitstats2_collect_data.py:114 | `re.split(r'\s+', line, n)` for the counts n >= 1 the engine passes: between 1 and n+1 parts, all but the last free of white space, and the last too when fewer than n+1 parts |
| Text.SplitRunsStep | gitstats2_collect_data.py:114 | a word followed by a run of white space splits off as the first part, and the rest is split with one split fewer |
| Text.SplitRunsLast | gitstats2_collect_data.py:114 | a string without white space, or a split count of 0, gives the string itself |
| Text.WordsStep | gitstats2_collect_data.py:106 | `str.split()`: a word followed by white space is the first word |
| Text.SplitN | gitstats2_collect_data.py:774 | `line.split(' ', n)`: at most n+1 parts, all but the last free of the separator, and joined back they give the line |
| Text.SplitNStep | gitstats2_collect_data.py:774 | a separator-free prefix and a separator split off as the first part |
| Text.LStripSpace | gitstats2_collect_data.py:538 | removes exactly the leading white space: a suffix that does not start with white space |
| Text.StripSpace | gitstats2_collect_data.py:629 | `strip()`: neither end is white space, and a string without white space is unchanged |
| Text.RStripSpace | gitstats2_collect_data.py:780 | `rstrip()`: a prefix that does not end in white space, and only white space was removed |
| Text.RStripChar | gitstats2_collect_data.py:781 | `rstrip('>')`: a prefix that does not end in the character, and only that character was removed |
| Text.ParseInt | gitstats2_collect_data.py:155 | `int(token)`: the decimal value of a digit string, the negated or plain value of digits after a `-` or `+` sign, a failure on the empty token, and success only for digits after an optional sign |
| Text.NatToString | gitstats2_collect_data.py:155 | the decimal digits of a number, read back by `int` as that number |
| Text.NumbersDigitsThen | gitstats2_collect_data.py:388 | `re.findall(r'\d+')` of a digit run followed by a non-digit starts with the run's value |
| Text.NumbersNoDigits | gitstats2_collect_data.py:388 | text without digits contributes no numbers |
| Text.LessIrreflexive | gitstats2_collect_data.py:848 | string `<` is irreflexive |
| Text.LessTransitive | gitstats2_collect_data.py:848 | string `<` is transitive |
| Text.LessTotal | gitstats2_collect_data.py:848 | any two distinct strings are ordered one way |
| Text.LessAsymmetric | gitstats2_collect_data.py:848 | string `<` is asymmetric |
| Text.MinStringIsLower | gitstats2_collect_data.py:948 | `min` of two strings is one of them and neither is smaller |
| Text.MinStringCommutative | gitstats2_collect_data.py:948 | `min` of two strings does not depend on their order |
| Text.MinStringAssociative | gitstats2_collect_data.py:948 | `min` of strings is associative |
| Text.Reversed | gitstats2_collect_data.py:352 | `reversed(lines)`: same length, element i is element n-1-i of the input |
| Text.ReversedConcat | gitstats2_collect_data.py:352 | reversing a concatenation reverses the order of the parts |
| Parallel.Map | gitstats2_collect_data.py:94-102 | `Pool.map` keeps order: as many results as inputs, result i is f of input i |
| Parallel.MapConcat | gitstats2_collect_data.py:94-102 | mapping two halves and concatenating is mapping the whole |
| Parallel.MapChunks | gitstats2_collect_data.py:94-102 | mapping chunk by chunk, as workers do, and flattening equals the sequential map |
| Parallel.MapEach | gitstats2_collect_data.py:80-85 | one mapped chunk per chunk, each the sequential map of its chunk |
| Parallel.Collect | gitstats2_collect_data.py:94-102 | a map whose items may raise succeeds exactly when every item succeeds, with the items' values in order; otherwise it raises one of the items' errors |
| Parallel.TreeLinesFields | gitstats2_collect_data.py:111-117 | on well-formed `ls-tree -r` lines, the last field of a three-split is each tracked path in order |
| Parallel.FileTreeOfListing | gitstats2_collect_data.py:111-117 | the corrected `file_tree_by_revision` of a listing returns exactly its non-submodule paths, in order |
| Parallel.FileTreeOfEmptyTree | gitstats2_collect_data.py:111-117 | empty `ls-tree` output yields the single path "" |
| Parallel.AsWrittenDropsFirstWord | gitstats2_collect_data.py:114-117 | as written, a path with a blank loses its first word (see Findings) |
| Parallel.FileTreeSameLength | gitstats2_collect_data.py:114-117 | four-split and three-split give the same number of entries: only the names differ |
| Parallel.AddTimeFilesCommit | gitstats2_collect_data.py:105-109 | succeeds exactly when the line has three words; the stamp and the hash are the first and third |
| Parallel.RevlistLineWords | gitstats2_collect_data.py:106 | a `<stamp> <tree> <hash>` line splits into exactly those three words |
| Parallel.FileTreeByRevlist | gitstats2_collect_data.py:94-102 | succeeds exactly when every line does; revision i comes from line i |
| Parallel.AddLinecount | gitstats2_collect_data.py:88-91 | succeeds exactly when the stripped `wc -l` output is an integer, and keeps the extension |
| Parallel.ExtLinesByBlob | gitstats2_collect_data.py:80-85 | one count per (extension, blob) pair, in order, with its extension |
| Parallel.Tally | gitstats2_collect_data.py:134 | `Counter(xs)`: positive counts over exactly the strings that occur |
| Parallel.Add | gitstats2_collect_data.py:129 | `Counter` sum: positive counts, pointwise the sum of the two |
| Parallel.CounterExt | gitstats2_collect_data.py:129 | positive counters with the same counts are equal |
| Parallel.AddCommutative | gitstats2_collect_data.py:129 | the order of two counters in a sum does not matter |
| Parallel.AddAssociative | gitstats2_collect_data.py:129 | counter sums are associative |
| Parallel.AddEmpty | gitstats2_collect_data.py:129 | `Counter()` is the unit of the sum |
| Parallel.SumSnoc | gitstats2_collect_data.py:129 | `sum(cs + [c])` adds c to `sum(cs)` |
| Parallel.SumConcat | gitstats2_collect_data.py:129 | summing a concatenation is the sum of the two sums |
| Parallel.SumChunks | gitstats2_collect_data.py:120-129 | summing per worker and then summing the partial sums equals the sequential sum |
| Parallel.TallyConcat | gitstats2_collect_data.py:134 | counting a concatenation adds the two counts |
| Parallel.SumOfTallies | gitstats2_collect_data.py:120-134 | the sum of per-file counters counts every blamed line once |
| Parallel.BlameEach | gitstats2_collect_data.py:120-128 | one author list per file, in order, from that file's blame |
| Parallel.LinesByAuthors | gitstats2_collect_data.py:120-134 | the summed per-file counters equal the counter of all the blamed lines' authors, an empty file's output counting as one line by author '' as the code does |
| Parallel.BlameCounterOfEmptyFile | gitstats2_collect_data.py:134 | as written, empty blame output counts one line for author "" (see Findings) |
| Parallel.BlameCounterOfLines | gitstats2_collect_data.py:131-134 | the corrected counter of a blame output counts each author's lines; as written, too, for a non-empty output |
| Tags.KeyLessIrreflexive | gitstats2_collect_data.py:524-526 | the (date, name) order of tags is irreflexive |
| Tags.KeyLessTransitive | gitstats2_collect_data.py:524-526 | the (date, name) order is transitive |
| Tags.KeyLessTotal | gitstats2_collect_data.py:524-526 | any two distinct (date, name) keys are ordered |
| Tags.KeyLessAsymmetric | gitstats2_collect_data.py:524-526 | the (date, name) order is asymmetric |
| Tags.Insert | gitstats2_collect_data.py:526 | insertion adds exactly one element |
| Tags.InsertDescending | gitstats2_collect_data.py:526 | inserting a new key into a descending list keeps it descending |
| Tags.SortDesc | gitstats2_collect_data.py:526 | `sorted(..., reverse=True)` is a permutation |
| Tags.SortDescSorted | gitstats2_collect_data.py:526 | and it is descending |
| Tags.OrderHeadLeast | gitstats2_collect_data.py:524-528 | the first tag of a walk order has the least key |
| Tags.OrderTail | gitstats2_collect_data.py:524-528 | the rest of a walk order orders the remaining tags |
| Tags.OrderLength | gitstats2_collect_data.py:524-528 | a walk order lists every tag once |
| Tags.TagOrderUnique | gitstats2_collect_data.py:524-528 | there is only one walk order: ascending by (date, name) |
| Tags.ReversedNamesAscending | gitstats2_collect_data.py:526-528 | reversing the descending sort gives tag names ascending by key |
| Tags.SortedKeys | gitstats2_collect_data.py:524-526 | sorting keeps every (date, name) pair of the tags |
| Tags.ReversedNamesCover | gitstats2_collect_data.py:526-528 | every tag appears in the reversed list |
| Tags.SortedTagOrder | gitstats2_collect_data.py:524-528 | the code's reversed descending sort is the walk order |
| Tags.Padding | gitstats2_collect_data.py:538 | the blanks git's `%6d` puts before a count of fewer than six digits |
| Tags.ShortlogEntry | gitstats2_collect_data.py:538-540 | as written: the author is the third part of a two-split |
| Tags.ShortlogEntryFixed | gitstats2_collect_data.py:538-540 | corrected: the author is what follows the count after left-stripping |
| Tags.CountWidth | gitstats2_collect_data.py:538-540 | a count is padded (at most five digits) exactly when it is below 100000 |
| Tags.PaddedParts | gitstats2_collect_data.py:538 | a padded shortlog line splits into "", the count and the author |
| Tags.ShortlogPadded | gitstats2_collect_data.py:538-540 | as written, a padded line parses to its (author, commits) |
| Tags.UnpaddedParts | gitstats2_collect_data.py:538 | an unpadded line splits into the count and the author only |
| Tags.ShortlogUnpaddedRaises | gitstats2_collect_data.py:538-540 | as written, an unpadded line raises ValueError on the author (see Findings) |
| Tags.ShortlogLineStripped | gitstats2_collect_data.py:538 | left-stripping any shortlog line leaves the count, a tab and the author |
| Tags.ShortlogFixedRoundTrip | gitstats2_collect_data.py:538-540 | the corrected parse gives every shortlog line's (author, commits) back |
| Tags.ParseShortlog | gitstats2_collect_data.py:537-540 | one parsed entry per output line, in order |
| Tags.Credit | gitstats2_collect_data.py:541-542 | `commits` grows by the count and the author's entry is set to it; stamp, hash and date are kept |
| Tags.ApplyShortlog | gitstats2_collect_data.py:537-542 | the stamp, hash and date of the tag are never changed |
| Tags.ShortlogError | gitstats2_collect_data.py:537-542 | the output raises exactly when some line fails, and the error is the first failing line's |
| Tags.ApplyShortlogAt | gitstats2_collect_data.py:537-542 | from line i, an error stops the fold and a parsed line credits its author |
| Tags.AuthorsOf | gitstats2_collect_data.py:542 | every parsed author is among the authors |
| Tags.ShortlogTotals | gitstats2_collect_data.py:541-542 | `commits` grows by the sum of the counts, and the authors gained are exactly those listed |
| Tags.ShortlogKeeps | gitstats2_collect_data.py:542 | an author not listed keeps their count |
| Tags.ShortlogLastWins | gitstats2_collect_data.py:542 | an author listed more than once keeps the last count (assigned, not added) |
| Tags.TagWalk | gitstats2_collect_data.py:528-542 | the walk keeps the set of tags |
| Tags.TagWalkKeepsDates | gitstats2_collect_data.py:528-542 | the walk never changes a tag's stamp, hash or date |
| Tags.TagWalkKeeps | gitstats2_collect_data.py:528-542 | tags outside the walk are untouched |
| Tags.TagWalkSkipsEmpty | gitstats2_collect_data.py:535-536 | a tag whose range output is empty is left as it was |
| Tags.TagWalkFirst | gitstats2_collect_data.py:528-542 | one step: empty output skips the tag and keeps `prev`; otherwise the tag is credited, `prev` advances to it, and an error stops the walk |
| Tags.GitTagsData.constructor | gitstats2_collect_data.py:480-482 | no tags are recorded |
| Tags.GitTagsData.AddShortlog | gitstats2_collect_data.py:537-542 | credits one tag's output to that tag only, stopping at the first failing line |
| Tags.GitTagsData.WalkTags | gitstats2_collect_data.py:528-542 | the loop leaves the repository's tags as the walk computes them, with its error |
| Tags.GitTagsData.CollectTagsInfo | gitstats2_collect_data.py:523-542 | KeyError for an unknown repository; otherwise walks the unique ascending tag order and reports the walk's error |
| Files.BaseName | gitstats2_collect_data.py:607 | the last path component: no `/`, a suffix of the path, the whole path when it has no `/` |
| Files.Extension | gitstats2_collect_data.py:608-614 | a non-empty extension has no dot, fits `max_ext_length`, follows a dot that is not the name's first character, and ends the name; "" when the name has no dot |
| Files.ExtensionOf | gitstats2_collect_data.py:608-614 | `stem.ext` has extension `ext` unless the stem is empty or `ext` is too long, and then "" (case kept) |
| Files.ParseBlobLine | gitstats2_collect_data.py:597-617 | an empty line gives nothing; a parsed blob comes from a five-part line and its id is the third part |
| Files.BlobFields | gitstats2_collect_data.py:600 | an `ls-tree -l` line splits into mode, type, object, size and path |
| Files.FileLineParsed | gitstats2_collect_data.py:597-617 | a regular file line parses to the extension of its base name, its blob and its size |
| Files.SubmoduleLineSkipped | gitstats2_collect_data.py:601-603 | a `160000` line with size `-` contributes nothing |
| Files.GatherOk | gitstats2_collect_data.py:592 | the comprehension raises exactly when some line raises |
| Files.ParsedLines | gitstats2_collect_data.py:592 | one parse per line, in order |
| Files.BlobsOk | gitstats2_collect_data.py:591-592 | the listing parses exactly when every line parses |
| Files.BlobsErrAt | gitstats2_collect_data.py:591-592 | one failing line makes the listing fail |
| Files.ExtBlobOf | gitstats2_collect_data.py:597-617 | the `(ext, blob)` pair exactly for a parsed blob, the same error for a failing line |
| Files.ExtBlobs | gitstats2_collect_data.py:592 | one `(ext, blob)` pair per blob, in order |
| Files.ExtensionCounts | gitstats2_collect_data.py:619-624 | each extension's `files` grows by its number of pairs and `lines` by their lines; an extension is present exactly when it was before or is listed |
| Files.ExtensionsConcat | gitstats2_collect_data.py:619-624 | updating with two batches in turn is updating with both at once |
| Files.DeltaAt | gitstats2_collect_data.py:639-649 | each delta is the value minus the previous one, the first previous being 0 |
| Files.DeltasTelescope | gitstats2_collect_data.py:639-649 | the deltas sum to the last value |
| Files.Store | gitstats2_collect_data.py:639-649 | a loop of dictionary assignments adds exactly the assigned keys |
| Files.StoreLatest | gitstats2_collect_data.py:639-649 | the last assignment to a key wins |
| Files.StoreUntouched | gitstats2_collect_data.py:639-649 | keys never assigned keep their values |
| Files.FileDeltaAt | gitstats2_collect_data.py:639-649 | revision i records its file count and the change since revision i-1 (0 before the first) |
| Files.FileDeltasTelescope | gitstats2_collect_data.py:639-649 | a repository's `delta_files` sum to the file count of its last revision |
| Files.AuthorLinesEntry | gitstats2_collect_data.py:662-680 | the three loops give every author of either revision their lines now and the change since the previous revision |
| Files.AuthorDeltasTelescope | gitstats2_collect_data.py:657-681 | an author's `delta_lines` sum to their lines at the last revision |
| Files.EmptyHistoryRaises | gitstats2_collect_data.py:629-633 | empty `rev-list` output raises (the single line "" has no three words) |
| Files.GitFilesStatistics.constructor | gitstats2_collect_data.py:548-554 | zero totals and empty dictionaries |
| Files.GitFilesStatistics.AddExtBlob | gitstats2_collect_data.py:597-617 | returns the line's pair and adds its size and one file, only for a parsed blob |
| Files.GitFilesStatistics.UpdateExtensions | gitstats2_collect_data.py:619-624 | the extension table becomes the update of the old one; nothing else changes |
| Files.GitFilesStatistics.AddExtBlobs | gitstats2_collect_data.py:591-592 | the listing's pairs, with the totals grown by its files and sizes |
| Files.GitFilesStatistics.CollectFiles | gitstats2_collect_data.py:588-595 | totals grow by the listing's blobs; the extensions are updated only when every line and every count parses |
| Files.GitFilesStatistics.UpdateFilesByStamp | gitstats2_collect_data.py:639-649 | `files_by_stamp` gains each revision's count and delta under its composite key |
| Files.GitFilesStatistics.UpdateLinesByDateByAuthor | gitstats2_collect_data.py:657-681 | `lines_by_date_by_author` gains each revision's per-author table under its composite key |
| Files.GitFilesStatistics.CollectRevlist | gitstats2_collect_data.py:626-637 | fails exactly when a revision line fails; otherwise records the file counts, and the author lines when `lines_by_date` is set |
| ShortStat.Decide | gitstats2_collect_data.py:151-185 | a transition fails only outside CommitInfo, with a parse error carrying the line |
| ShortStat.DecideCases | gitstats2_collect_data.py:151-185 | ChangesByCommit is entered only on a diffstat line from another state, Initial only on a blank line, CommitInfo from elsewhere only on a stamp line; the parse fails exactly on a non-stamp, non-diffstat line in Initial, or a non-blank, non-stamp line in ChangesByCommit |
| ShortStat.ModifiedCounts | gitstats2_collect_data.py:387-397 | fails exactly when the line has no number, or two numbers and neither marker; `files` is always the first number |
| ShortStat.NumbersOfDiffstat | gitstats2_collect_data.py:388 | the numbers of git's diffstat line are files, then insertions and deletions when shown |
| ShortStat.DiffstatPlusMarker | gitstats2_collect_data.py:391 | `(+)` occurs exactly when insertions are shown |
| ShortStat.DiffstatMinusMarker | gitstats2_collect_data.py:393 | `(-)` occurs whenever deletions are shown |
| ShortStat.ModifiedCountsOfDiffstat | gitstats2_collect_data.py:387-397 | parsing git's rendering of any count triple gives the triple back |
| ShortStat.DiffstatLineKind | gitstats2_collect_data.py:151-185 | a diffstat line is classified as a diffstat, not a stamp and not blank |
| ShortStat.HeaderLineKind | gitstats2_collect_data.py:400-435 | a header is a stamp line whose first field is the stamp and whose rest is the author |
| ShortStat.Advance | gitstats2_collect_data.py:252-256 | a step records (old, new, line), and the new state is the one the decision gives |
| ShortStat.Run | gitstats2_collect_data.py:350-355 | a completed replay takes one step per line, in order |
| ShortStat.RunErrSticky | gitstats2_collect_data.py:350-355 | an error ends the pass: more lines never undo it |
| ShortStat.RunChains | gitstats2_collect_data.py:350-355 | the steps start in Initial and each starts where the previous ended |
| ShortStat.AdvanceBy | gitstats2_collect_data.py:382-384 | the callback registered for (old, new) fires on the same line |
| ShortStat.AdvanceBlank | gitstats2_collect_data.py:164-172 | a blank line after a header returns to Initial and fires nothing |
| ShortStat.AdvanceStat | gitstats2_collect_data.py:273-285 | a diffstat from Initial stores its counts as pending |
| ShortStat.AdvanceHeader | gitstats2_collect_data.py:338-380 | a header after a diffstat applies the pending counts to that header |
| ShortStat.AdvanceBareHeader | gitstats2_collect_data.py:366-367 | a header after a header is a merge commit only when the merge callback is registered |
| ShortStat.RunRenderedLog | gitstats2_collect_data.py:350-374 | replaying any well-formed rendered log in reverse succeeds, takes the expected steps, and emits one change per commit with a diffstat and one merge per later bare header (when registered) |
| ShortStat.ExpectedStepsOrder | test_gitstats2_shortstat_parser.py:112-131 | on a rendered log: Initial goes on to ChangesByCommit, ChangesByCommit to CommitInfo, CommitInfo to Initial or CommitInfo |
| LogShortStat.TablesRestored | gitstats2_collect_data.py:356-380 | each pass puts back the table the constructor built |
| LogShortStat.PassCallbacks | gitstats2_collect_data.py:273-285 | which callback each pass fires on each transition |
| LogShortStat.LinesModifiedRunningTotal | gitstats2_collect_data.py:399-418 | the commit's `changes_by_date` entry carries its counts and the running total, which stays added minus removed |
| LogShortStat.ProcessChange | gitstats2_collect_data.py:399-453 | with no pending record the callback raises; otherwise it applies the record to the header |
| LogShortStat.PassStep | gitstats2_collect_data.py:350-355 | one loop iteration is one replay step plus one applied event |
| LogShortStat.FoldKeepsConsistent | gitstats2_collect_data.py:414-418 | any sequence of updates keeps `total_lines[r] == total_lines_added[r] - total_lines_removed[r]` |
| LogShortStat.FoldLineTotals | gitstats2_collect_data.py:399-418 | lines added and removed grow by the events' insertions and deletions; other repositories are untouched |
| LogShortStat.FoldLinesOk | gitstats2_collect_data.py:399-412 | events on stamp headers never raise |
| LogShortStat.FoldAuthorCounts | gitstats2_collect_data.py:430-474 | each author's lines grow by their own changes and commits by their own changes and merges |
| LogShortStat.AuthorEventCounts | gitstats2_collect_data.py:430-474 | one event changes only its own author's counters |
| LogShortStat.MergeCommitKeys | gitstats2_collect_data.py:455-466 | after a merge commit the author has 'commits'; a known author keeps whichever line keys it had, a new one gets both set to 0 |
| LogShortStat.MergeCommitFixedKeys | gitstats2_collect_data.py:462-466 | the corrected callback leaves all three keys present, with the counters and entries the code gives |
| LogShortStat.AuthorEventKeys | gitstats2_collect_data.py:430-474 | which keys one event of the author pass leaves in its author's dictionary |
| LogShortStat.FoldAuthorKeys | gitstats2_collect_data.py:360-380 | after the author pass an author is present iff present before or seen; has 'commits' iff it had it or any commit was seen; has the line keys iff it had them, a commit with a diffstat was seen, or its first commit came before it had a dictionary |
| LogShortStat.FoldMergeOnlyKeys | gitstats2_collect_data.py:455-466 | an author present without count keys whose commits are all merges ends the pass with 'commits' only |
| LogShortStat.ExpectedEventsLines | gitstats2_collect_data.py:338-358 | a rendered log's events add up to its insertions and deletions |
| LogShortStat.ExpectedEventsCommits | gitstats2_collect_data.py:360-380 | an author's counted commits plus the uncounted oldest commit equal their headers |
| LogShortStat.LinesPassOfRenderedLog | gitstats2_collect_data.py:338-358 | the lines pass over a rendered log succeeds and adds its insertions and deletions |
| LogShortStat.AuthorsPassOfRenderedLog | gitstats2_collect_data.py:360-380 | the author pass succeeds and counts every header of the author, except an oldest commit without diffstat |
| LogShortStat.LogShortStatData.constructor | gitstats2_collect_data.py:259-285 | state Initial, nothing pending, empty dictionaries |
| LogShortStat.LogShortStatData.Toggle | gitstats2_collect_data.py:382-384 | selects the (old, new) callback before switching the state |
| LogShortStat.LogShortStatData.Decide | gitstats2_collect_data.py:252-253 | a parse error leaves the whole object unchanged; otherwise the state moves as decided |
| LogShortStat.LogShortStatData.StoreChangesByCommit | gitstats2_collect_data.py:335-336 | stores the parsed counts as pending, or raises and keeps them |
| LogShortStat.LogShortStatData.UpdateTotalLines | gitstats2_collect_data.py:414-418 | the three totals become their update |
| LogShortStat.LogShortStatData.UpdateLinesModifiedByMonth | gitstats2_collect_data.py:420-423 | the month maps become their update |
| LogShortStat.LogShortStatData.UpdateLinesModifiedByYear | gitstats2_collect_data.py:425-428 | the year maps become their update |
| LogShortStat.LogShortStatData.RecordLinesModified | gitstats2_collect_data.py:399-412 | raises without a stamp or pending record; otherwise the dictionaries become the lines update |
| LogShortStat.LogShortStatData.RecordLinesModifiedByAuthor | gitstats2_collect_data.py:430-453 | raises without a pending record; otherwise the author's counters and entry update |
| LogShortStat.LogShortStatData.RecordMergeCommit | gitstats2_collect_data.py:455-474 | one more commit and a merge entry with no lines; the line keys are set to 0 only for an author without a dictionary |
| LogShortStat.LogShortStatData.ProcessCurrentState | gitstats2_collect_data.py:352-355 | runs the selected callback on the dictionaries |
| LogShortStat.LogShortStatData.ReplayReversed | gitstats2_collect_data.py:352-355 | the loop fails exactly when the replay does; otherwise the state, the pending record and the dictionaries are the replay's and the fold of its events |
| LogShortStat.LogShortStatData.CollectLinesModified | gitstats2_collect_data.py:338-358 | the lines pass as a replay plus a fold, with the table restored |
| LogShortStat.LogShortStatData.CollectLinesModifiedByAuthor | gitstats2_collect_data.py:360-380 | the author pass as a replay plus a fold, with the table restored |
| Activity.Bump | gitstats2_collect_data.py:803-805 | `d[k] = d.get(k, 0) + 1`: k is added or incremented, other keys unchanged |
| Activity.MailDomain | gitstats2_collect_data.py:781-785 | "?" without `@`; otherwise the text after the last `@` |
| Activity.ParseCommitLine | gitstats2_collect_data.py:773-785 | a parsed line has five parts, its stamp is the first and its timezone the fourth |
| Activity.CommitTextParsed | gitstats2_collect_data.py:773-785 | git's `%at %ai %aN <%aE>` line parses back to its stamp, timezone, author and mail domain |
| Activity.CommitDeltaDays | gitstats2_collect_data.py:712-713 | at least one day, one more than the whole days between the stamps (or two with a day boundary), one day within the same day |
| Activity.WeekBumped | gitstats2_collect_data.py:815-818 | the (day, hour) count is incremented, other days kept |
| Activity.AuthorStatsUpdated | gitstats2_collect_data.py:830-842 | a new author gets this stamp as first and last; a known one the min and max |
| Activity.EarliestDay | gitstats2_collect_data.py:874-877 | the lesser of the day and the first day so far |
| Activity.RecordLinesFirst | gitstats2_collect_data.py:772-794 | a failing line stops the loop with its error; otherwise the commit is recorded and the loop goes on |
| Activity.InitialValid | gitstats2_collect_data.py:684-704 | the constructor's state meets the invariant |
| Activity.BumpKeepsMax | gitstats2_collect_data.py:807-811 | an increment with the eager update keeps the busiest counter the maximum |
| Activity.WeekBumpKeepsMax | gitstats2_collect_data.py:813-820 | likewise for the hour-of-week table |
| Activity.SumOfBump | gitstats2_collect_data.py:854-861 | one increment adds one to the sum |
| Activity.TotalsBumped | gitstats2_collect_data.py:854-870 | the month or year total stays the sum of its per-author map |
| Activity.EarliestDayKeepsFirst | gitstats2_collect_data.py:872-878 | the first active day stays the least active day |
| Activity.ActivityKeepsValid | gitstats2_collect_data.py:807-828 | `_update_activity` keeps the busiest and peak counters the maxima |
| Activity.PeriodsKeepValid | gitstats2_collect_data.py:854-870 | the month and year updates keep totals equal to sums |
| Activity.AuthorKeepsValid | gitstats2_collect_data.py:830-852 | the author updates keep first ≤ last and the first active day the least |
| Activity.CommitKeepsValid | gitstats2_collect_data.py:786-794 | recording a commit keeps the invariant |
| Activity.RecordLinesKeepsValid | gitstats2_collect_data.py:772-794 | the whole loop keeps the invariant |
| Activity.ExtremesAreMinMax | gitstats2_collect_data.py:796-800 | for positive stamps, the first and last commit stamps are the least and greatest seen |
| Activity.GitContributionActivity.constructor | gitstats2_collect_data.py:684-704 | the initial state, which meets the invariant |
| Activity.GitContributionActivity.UpdateExtremalCommitStamps | gitstats2_collect_data.py:796-800 | the stamps become their update |
| Activity.GitContributionActivity.UpdateMailDomains | gitstats2_collect_data.py:802-805 | the domain is counted |
| Activity.GitContributionActivity.UpdateActivity | gitstats2_collect_data.py:807-828 | the histograms become their update |
| Activity.GitContributionActivity.CountHour | gitstats2_collect_data.py:808-811 | the hour is counted, with its busiest counter |
| Activity.GitContributionActivity.CountWeekHour | gitstats2_collect_data.py:813-820 | the weekday and (weekday, hour) are counted, with the busiest counter |
| Activity.GitContributionActivity.CountSeason | gitstats2_collect_data.py:822-828 | the month and year-week are counted, with the peak |
| Activity.GitContributionActivity.UpdateAuthorStats | gitstats2_collect_data.py:830-842 | the author's stamps become their update |
| Activity.GitContributionActivity.UpdateAuthorActivity | gitstats2_collect_data.py:844-852 | the author's first active day and days become their update |
| Activity.GitContributionActivity.UpdateCommitsByMonth | gitstats2_collect_data.py:854-861 | the month's author and total are counted |
| Activity.GitContributionActivity.UpdateCommitsByYear | gitstats2_collect_data.py:863-870 | the year's author and total are counted |
| Activity.GitContributionActivity.UpdateActiveDays | gitstats2_collect_data.py:872-878 | the day is added and the first active day updated |
| Activity.GitContributionActivity.UpdateTimezones | gitstats2_collect_data.py:880-884 | the timezone is counted |
| Activity.GitContributionActivity.RecordCommit | gitstats2_collect_data.py:786-794 | the nine updates of one commit, in order |
| Activity.GitContributionActivity.RecordLine | gitstats2_collect_data.py:773-794 | a failing line raises and changes nothing; otherwise its commit is recorded |
| Activity.GitContributionActivity.RecordAllLines | gitstats2_collect_data.py:773-794 | the loop leaves the state and the error of the pure fold |
| Activity.GitContributionActivity.CountCommitLines | gitstats2_collect_data.py:772 | `total_commits` grows by the number of lines and nothing else changes |
| Activity.GitContributionActivity.CollectCommitsGraph | gitstats2_collect_data.py:767-794 | the state and error of the commit-graph fold, which keeps the invariant |
| Authors.Merged | gitstats2_collect_data.py:938-952 | max of last stamps, min of first stamps and first days, union of days, then the counts; the first missing key raises KeyError naming it, and what was assigned before it stays |
| Authors.CountsMerged | gitstats2_collect_data.py:950-952 | 'commits', 'lines_added' and 'lines_removed' summed in that order; the first key missing on either side raises KeyError naming it, with the earlier sums kept |
| Authors.MergedLacksLineKeys | gitstats2_collect_data.py:950-951 | a record with 'commits' but no 'lines_added' raises KeyError('lines_added') in either order, after 'commits' is summed |
| Authors.MergeOnlyRecord | gitstats2_collect_data.py:455-466 | the repository's record of an author `_collect_commits_graph` recorded and whose commits are all merges: its activity and 'commits' alone |
| Authors.MergeOnlyAuthorRaises | gitstats2_collect_data.py:938-952 | that record, merged with the author's record from any other repository in either order, raises KeyError('lines_added') |
| Authors.MergeCommitFixedMerges | gitstats2_collect_data.py:938-952 | with the corrected merge commit the author's record is complete and merges with any complete record, in either order, without raising |
| Authors.MergedCommutes | gitstats2_collect_data.py:938-952 | merging two complete records does not depend on their order |
| Authors.MergedAssociates | gitstats2_collect_data.py:938-952 | merging is associative |
| Authors.MergedGrows | gitstats2_collect_data.py:938-952 | the merge widens both stamp ranges, keeps both sets of days, and never lowers the commits |
| Authors.AccumulatedKeepsValid | gitstats2_collect_data.py:938-952 | a new author is inserted as given; a known one is merged; other authors are untouched |
| Authors.AccumulatedComplete | gitstats2_collect_data.py:938-952 | complete records never raise |
| Authors.AccumulatedSwap | gitstats2_collect_data.py:934-952 | two authors can be accumulated in either order |
| Authors.AccumulatedAllComplete | gitstats2_collect_data.py:934-936 | a repository of complete records never raises |
| Authors.AccumulatedAllSwap | gitstats2_collect_data.py:934-952 | one record can be moved past a whole repository |
| Authors.AccumulatedAllSame | gitstats2_collect_data.py:934-936 | the result depends only on the recorded statistics |
| Authors.RepositoryOrderFree | gitstats2_collect_data.py:934-952 | the merged statistics do not depend on the order of the repositories |
| Authors.InsertByCommits | gitstats2_collect_data.py:899-901 | inserting into a ranking keeps it a ranking with one more name |
| Authors.RankByCommits | gitstats2_collect_data.py:899-901 | a permutation of the authors, descending by commits |
| Authors.InsertStable | gitstats2_collect_data.py:899-901 | insertion puts the name after the authors with the same commits |
| Authors.RankStable | gitstats2_collect_data.py:899-901 | the sort is stable: authors with equal commits keep their order |
| Authors.SliceTo | gitstats2_collect_data.py:902 | `[:limit]`: a prefix, the whole list without a limit, and Python's lengths for positive and negative limits |
| Authors.AuthorsByCommits | gitstats2_collect_data.py:898-902 | KeyError `commits` exactly when some author lacks 'commits'; otherwise the stable ranking by commits cut by `[:limit]` |
| Authors.AuthorsByCommitsTop | gitstats2_collect_data.py:898-902 | the result is distinct authors, and each has at least as many commits as any author left out |
| Authors.DistinctPermutation | gitstats2_collect_data.py:899-901 | a permutation of distinct names is distinct |
| Authors.GitStatisticsData.constructor | gitstats2_collect_data.py:890-893 | no authors |
| Authors.GitStatisticsData.UpdateAndAccumulateFrom | gitstats2_collect_data.py:938-952 | the table and error of the pure accumulation, which keeps the table valid |
| Authors.GitStatisticsData.UpdateAndAccumulateAuthorsStats | gitstats2_collect_data.py:934-936 | the loop over a repository's authors, as the pure fold |

## Left out

- The subprocess layer is not modelled: `get_pipe_output`, `cwd_git`, the shell pipelines and the timing printout. Each command's output is a parameter or an oracle function.
- `multiprocessing.Pool` is not modelled. `map` and `starmap` are a sequential, order-preserving map, and `lines_by_authors` is a `Counter` sum. Chunked evaluation is proved equal to the sequential one (`Parallel.MapChunks`, `Parallel.SumChunks`).
- `datetime.fromtimestamp` and `strftime` depend on the host timezone and calendar, so they are an oracle from the stamp to the fields the code reads.
- The `collect()` methods are not modelled: the per-repository loops, `os.chdir`, `time.time` and the project name. The per-repository steps they call are modelled.
- `_collect_tags` and `_collect_authors` are not modelled: they only read git output into dictionaries. The tag map is an input of `CollectTagsInfo`.
- `GitStatisticsWriter` and `main` are I/O and are not modelled.
- `_authors_of_repository` is modelled as two maps:
  - In Python, a single dictionary is shared between `LogShortStatData` and `GitContributionActivity`.
  - Here `GitContributionActivity` keeps the stamps and active days, and `LogShortStatData` keeps the keys 'commits', 'lines_added' and 'lines_removed', each of which may be missing.
  - `Authors.RecordOf` pairs the two parts into one record; a missing part or key is a missing key, which the author merge reports as KeyError.
  - `Authors.CountsAfterCommitsGraph` is the counts part as `_collect_commits_graph` hands it to the two passes in `GitStatisticsData.collect`: every author present, with no count key. The two objects are not wired together, because `collect()` is not modelled.
- `stats.copy()` shares the `active_days` set with the repository's dictionary. That dictionary is discarded after the merge, so the aliasing has no visible effect and is not modelled.
- Text.ParseInt: `int()` also accepts surrounding white space and underscores between digits. The model accepts only digits after an optional sign. No input the engine builds relies on the difference.
- Text.IsDigit: only the ASCII digits `0`-`9` count as digits. Python's `int()` and the `\d` of `re.findall(r'\d+')` (388) also accept every other Unicode decimal digit, so `Text.ParseInt` and `Text.Numbers` reject or skip such digits where Python reads them. git renders its stamps and counts in ASCII, so the collector's inputs do not contain them.
- Text.IsSpace: the ASCII white space of Python's `str.split()`, `strip()` and `\s`, that is blank, `\t`, `\n`, `\r`, `\x0b`, `\x0c` and the separators `\x1c`-`\x1f`. The non-ASCII white space Python also counts (`\x85`, `\xa0`, `\u2000`-`\u200a` and others) is not modelled.
- Parallel.AsWrittenDropsFirstWord: proved for a path with a single blank. A path with more blanks loses more, but this is not proved.
- Parallel.Collect: states that the error raised is one of the items' errors. It does not say which, although `Pool.map` raises the first failing chunk's.
- ShortStat.DiffstatMinusMarker: proved in one direction only. The converse, that `(-)` is absent when deletions are not shown, is not proved; the round trip `ShortStat.ModifiedCountsOfDiffstat` needs only this direction, because the `(+)` test comes first.
- ShortStat.ExpectedStepsOrder requires the oldest commit to have a diffstat. Otherwise the first line of the replay is a header, and the replay takes Initial to CommitInfo, which the test's assertion would not accept either.
- Activity.CommitDeltaDays: bounds the result rather than restating the floor divisions, and says nothing when the first stamp is after the last. Dafny's `/` agrees with Python's `//` for the positive divisor 86400, negative stamps included.
- ShortStat.Decide accepts every integer as a stamp. `datetime.fromtimestamp(int(stamp))` (156, 182) raises ValueError for a stamp whose year is out of range, which in Initial makes the line a parse error unless it contains "files changed", and OverflowError or OSError for larger stamps, which nothing catches. The stamp's range is not checked.
- Activity.ParseCommitLine: every integer counts as a stamp. In `_collect_commits_graph`, `datetime.datetime.fromtimestamp(stamp)` (777) runs after `int(parts[0])` and before `parts[3]` is read. For a stamp outside the platform's range it raises ValueError, OverflowError or OSError, and nothing catches it, so the pass stops there. The model parses such a line and records its commit (`Activity.GitContributionActivity.RecordLine`, `Activity.GitContributionActivity.CollectCommitsGraph`), because its calendar is total.
- ShortStat.DecideCases rests on the same stamp test, so its case split holds only for stamps `fromtimestamp` accepts.
- Text.SplitRuns: a split count of 0 means "no further split" and returns the string itself, whereas `re.split` reads 0 as "no limit". The engine passes only 1, 2 and 4.
- Text.SplitRunsLast states that count-0 case, which `re.split` does not share.
- Files.GitFilesStatistics.AddExtBlobs: after an error the contract does not state the totals already grown. No handler in the engine catches the error.
- LogShortStat.LogShortStatData.ReplayReversed: after an error the contract does not state the dictionaries the events before it filled. No handler in the engine catches the error.
- LogShortStat.LogShortStatData.CollectLinesModified: after an error the contract does not state the dictionaries, for the same reason.
- LogShortStat.LogShortStatData.CollectLinesModifiedByAuthor: after an error the contract does not state the dictionaries, for the same reason.
- Activity.BumpKeepsMax: the busiest counters are proved to be maxima only through the invariant `Valid`, which requires histogram counts to be positive, as they are from the constructor on.

Points where the model follows the code rather than what a reader might expect of it:

- A shortstat parse error propagates out of the pass; nothing catches it or resets the counters (`ShortStat.Decide`, `LogShortStat.LogShortStatData.ReplayReversed`).
- Extensions are kept as written; nothing lower-cases them (`Files.Extension`).
- A diffstat with two numbers and neither marker raises (`ShortStat.ModifiedCounts`).
- Tags are ordered by (date string, tag name) ascending, not by commit date alone (`Tags.TagOrderUnique`).

## Findings

| source | as written | input that shows it | evidently intended | confidence | as-written member | corrected member |
|---|---|---|---|---|---|---|
| gitstats2_collect_data.py:114-117 | `re.split(r'\s+', line, 4)` on `ls-tree -r` lines, which have four fields, keeps the last of five parts | `100644 blob <id>\tmy file.txt` yields `file.txt` | split into at most four parts, so that the path is kept whole | not executed | Parallel.AsWrittenDropsFirstWord | Parallel.FileTreeOfListing |
| gitstats2_collect_data.py:134 | `Counter(pipe_out.split('\n'))` of empty blame output is `{'': 1}` | an empty tracked file counts one line for author "" | no lines for an empty output | not executed | Parallel.BlameCounterOfEmptyFile | Parallel.BlameCounterOfLines |
| gitstats2_collect_data.py:462-466 | `_update_merge_commit` sets 'lines_added' and 'lines_removed' only for an author without a dictionary, but `_collect_commits_graph` has already created one for every author | an author whose commits in one repository are all merges, and who also appears in a second repository: `author['lines_added'] += stats['lines_added']` at 951 raises KeyError in either repository order | set the line keys to 0 when missing (`setdefault`) | not executed | Authors.MergeOnlyAuthorRaises | Authors.MergeCommitFixedMerges |
| gitstats2_collect_data.py:538-540 | `re.split(r'\s+', line, 2)` assumes the count is padded by a leading blank | a tag range with an author of 100000 commits: `100000\tName` makes `int('Name')` raise | parse the count and the author after stripping the leading blanks | not executed | Tags.ShortlogUnpaddedRaises | Tags.ShortlogFixedRoundTrip |

The collectors follow the code as written, so each of these behaviours remains visible in the model: `Parallel.AddTimeFilesCommit` lists the tree with `file_tree_by_revision`, `Parallel.LinesByAuthors` sums the as-written blame counters, `Tags.ParseShortlog` (and through it `Tags.GitTagsData.WalkTags`) parses with the as-written split, and `LogShortStat.LogShortStatData.RecordMergeCommit` sets the line keys only for a new author. The corrected definitions (`Parallel.FileTreeByRevisionFixed`, `Parallel.BlameCounterFixed`, `Tags.ShortlogEntryFixed`, `LogShortStat.MergeCommitRecordedFixed`) stand beside them with their properties proved.
