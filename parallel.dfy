/**
 * GitStatisticsParallel: the helpers the collector hands to a process pool.
 * `Pool.map` and `Pool.starmap` cut their input into chunks, run the chunks
 * on worker processes and concatenate the answers in input order; here the
 * map is sequential and the chunking is a lemma (`MapChunks`).  The blame
 * counters are summed with `collections.Counter`'s `+`, whose grouping and
 * order do not matter (`SumChunks`, `AddCommutative`).
 *
 * Every git command is an oracle: `lsTree(rev)` is the output of
 * `git ls-tree -r <rev>`, `wc(blob)` that of `git cat-file blob <blob> | wc -l`,
 * and `blame(commit, path)` the author lines of `git blame --line-porcelain`
 * (all after the trailing newlines are stripped).
 */
module Parallel {
  import opened Wrappers
  import opened Text

  // ---------------------------------------------------------------------------
  // Pool.map: an order-preserving map, and the first failure

  function Map<T, U>(f: T -> U, xs: seq<T>): (ys: seq<U>)
    ensures |ys| == |xs|
    ensures forall i :: 0 <= i < |xs| ==> ys[i] == f(xs[i])
  {
    seq(|xs|, i requires 0 <= i < |xs| => f(xs[i]))
  }

  function Flatten<T>(chunks: seq<seq<T>>): seq<T>
  {
    if chunks == [] then [] else chunks[0] + Flatten(chunks[1..])
  }

  function MapEach<T, U>(f: T -> U, chunks: seq<seq<T>>): (rs: seq<seq<U>>)
    ensures |rs| == |chunks|
    ensures forall i :: 0 <= i < |chunks| ==> rs[i] == Map(f, chunks[i])
  {
    seq(|chunks|, i requires 0 <= i < |chunks| => Map(f, chunks[i]))
  }

  lemma MapConcat<T, U>(f: T -> U, xs: seq<T>, ys: seq<T>)
    ensures Map(f, xs + ys) == Map(f, xs) + Map(f, ys)
  {
    var l, r := Map(f, xs + ys), Map(f, xs) + Map(f, ys);
    assert |l| == |r|;
    forall i | 0 <= i < |l| ensures l[i] == r[i] {
      if i < |xs| { assert (xs + ys)[i] == xs[i]; } else { assert (xs + ys)[i] == ys[i - |xs|]; }
    }
  }

  /** However the pool cuts the input into chunks, the answers come back as the sequential map's. */
  lemma {:induction false} MapChunks<T, U>(f: T -> U, chunks: seq<seq<T>>)
    ensures Flatten(MapEach(f, chunks)) == Map(f, Flatten(chunks))
  {
    if chunks != [] {
      var rs := MapEach(f, chunks);
      assert rs[1..] == MapEach(f, chunks[1..]);
      assert Flatten(rs) == rs[0] + Flatten(rs[1..]);
      assert Flatten(chunks) == chunks[0] + Flatten(chunks[1..]);
      MapChunks(f, chunks[1..]);
      MapConcat(f, chunks[0], Flatten(chunks[1..]));
    }
  }

  /** A map whose workers may raise: the answers in order, or the first failure in input order. */
  function Collect<U>(rs: seq<Result<U>>): (r: Result<seq<U>>)
    ensures r.Ok? <==> forall i :: 0 <= i < |rs| ==> rs[i].Ok?
    ensures r.Ok? ==> |r.value| == |rs| && forall i :: 0 <= i < |rs| ==> r.value[i] == rs[i].value
    ensures r.Err? ==> exists i :: 0 <= i < |rs| && rs[i] == Err(r.error)
  {
    if rs == [] then Ok([])
    else match rs[0]
      case Err(e) => Err(e)
      case Ok(v) =>
        match Collect(rs[1..])
        case Err(e) => assert rs[1..][0] == rs[1]; Err(e)
        case Ok(vs) => Ok([v] + vs)
  }

  // ---------------------------------------------------------------------------
  // file_tree_by_revision: the paths of `git ls-tree -r`

  /** One line of `git ls-tree -r`: `<mode> <type> <object>\t<path>`. */
  datatype TreeEntry = TreeEntry(mode: string, kind: string, objectName: string, path: string)

  function TreeLine(e: TreeEntry): string
  {
    e.mode + " " + (e.kind + " " + (e.objectName + "\t" + e.path))
  }

  /** What git prints: three blank-free fields, and a path that starts with a non-blank and has no newline. */
  predicate WellFormedEntry(e: TreeEntry)
  {
    && e.mode != [] && NoSpace(e.mode)
    && e.kind != [] && NoSpace(e.kind)
    && e.objectName != [] && NoSpace(e.objectName)
    && e.path != [] && !IsSpace(e.path[0]) && '\n' !in e.path
  }

  function TreeLines(es: seq<TreeEntry>): (ls: seq<string>)
    ensures |ls| == |es| && forall i :: 0 <= i < |es| ==> ls[i] == TreeLine(es[i])
  {
    if es == [] then [] else [TreeLine(es[0])] + TreeLines(es[1..])
  }

  /** The paths of the entries that are not submodules (mode 160000), in order. */
  function TrackedPaths(es: seq<TreeEntry>): (ps: seq<string>)
    ensures |ps| <= |es|
  {
    if es == [] then []
    else (if es[0].mode == "160000" then [] else [es[0].path]) + TrackedPaths(es[1..])
  }

  /**
   * The list comprehension of `file_tree_by_revision` over its lines: split
   * each line at white-space runs at most `maxsplit` times, drop the lines
   * whose first field is `160000`, keep the last field.
   */
  function LastFields(lines: seq<string>, maxsplit: nat): (ps: seq<string>)
    ensures |ps| <= |lines|
  {
    if lines == [] then []
    else
      var parts := SplitRuns(lines[0], maxsplit);
      (if parts[0] == "160000" then [] else [parts[|parts| - 1]]) + LastFields(lines[1..], maxsplit)
  }

  /** `file_tree_by_revision` as written: `re.split(r'\s+', line, 4)`. */
  function FileTreeByRevision(pipeOut: string): seq<string>
  {
    LastFields(Split(pipeOut, '\n'), 4)
  }

  /** `file_tree_by_revision` with the four fields of `ls-tree -r` split off by `re.split(r'\s+', line, 3)`. */
  function FileTreeByRevisionFixed(pipeOut: string): seq<string>
  {
    LastFields(Split(pipeOut, '\n'), 3)
  }

  /** `re.split(r'\s+', …)` on `<word><blank><rest>` with one split left. */
  lemma TwoFields(w: string, c: char, rest: string)
    requires NoSpace(w) && IsSpace(c) && (rest == [] || !IsSpace(rest[0]))
    ensures SplitRuns(w + [c] + rest, 1) == [w] + [rest]
  {
    SplitRunsLast(rest, 0);
    SplitRunsPrepend(w, c, rest, 1, [rest]);
  }

  lemma ThreeFields(kind: string, obj: string, path: string)
    requires NoSpace(kind) && obj != [] && NoSpace(obj) && path != [] && !IsSpace(path[0])
    ensures SplitRuns(kind + " " + (obj + "\t" + path), 2) == [kind] + ([obj] + [path])
  {
    var tail := obj + "\t" + path;
    assert tail[0] == obj[0];
    TwoFields(obj, '\t', path);
    SplitRunsPrepend(kind, ' ', tail, 2, [obj] + [path]);
  }

  /** `re.split(r'\s+', line, 3)` of a line made of four fields. */
  lemma FourFields(mode: string, kind: string, obj: string, path: string)
    requires NoSpace(mode) && kind != [] && NoSpace(kind) && obj != [] && NoSpace(obj)
    requires path != [] && !IsSpace(path[0])
    ensures SplitRuns(mode + " " + (kind + " " + (obj + "\t" + path)), 3) == [mode] + ([kind] + ([obj] + [path]))
  {
    var tail := kind + " " + (obj + "\t" + path);
    assert tail[0] == kind[0];
    ThreeFields(kind, obj, path);
    SplitRunsPrepend(mode, ' ', tail, 3, [kind] + ([obj] + [path]));
  }

  /** One more field in front of a split whose first character is not blank. */
  lemma FieldThenSplit(w: string, c: char, tail: string, k: nat, q: seq<string>)
    requires w != [] && NoSpace(w) && IsSpace(c) && tail != [] && !IsSpace(tail[0])
    requires SplitRuns(tail, k) == q
    ensures SplitRuns(w + [c] + tail, k + 1) == [w] + q
    ensures (w + [c] + tail)[0] == w[0] && !IsSpace((w + [c] + tail)[0])
  {
    SplitRunsPrepend(w, c, tail, k + 1, q);
  }

  /** The split of `<kind> <object>\t<path>` with `k` splits left for the path. */
  lemma KindFields(kind: string, obj: string, path: string, k: nat, p: seq<string>)
    requires kind != [] && NoSpace(kind) && obj != [] && NoSpace(obj)
    requires path != [] && !IsSpace(path[0]) && SplitRuns(path, k) == p
    ensures SplitRuns(kind + " " + (obj + "\t" + path), k + 2) == [kind] + ([obj] + p)
  {
    var tail := obj + "\t" + path;
    var q := [obj] + p;
    FieldThenSplit(obj, '\t', path, k, p);
    assert SplitRuns(tail, k + 1) == q;
    assert tail[0] == obj[0];
    FieldThenSplit(kind, ' ', tail, k + 1, q);
  }

  /**
   * The split of `<mode> <kind> <object>\t<path>` with `k` splits left for
   * the path: the three leading fields, then the path's own parts.
   */
  lemma LineFields(mode: string, kind: string, obj: string, path: string, k: nat, p: seq<string>)
    requires mode != [] && NoSpace(mode) && kind != [] && NoSpace(kind) && obj != [] && NoSpace(obj)
    requires path != [] && !IsSpace(path[0]) && SplitRuns(path, k) == p
    ensures SplitRuns(mode + " " + (kind + " " + (obj + "\t" + path)), k + 3) == [mode] + ([kind] + ([obj] + p))
  {
    var tail := kind + " " + (obj + "\t" + path);
    var q := [kind] + ([obj] + p);
    KindFields(kind, obj, path, k, p);
    assert SplitRuns(tail, k + 2) == q;
    assert tail[0] == kind[0];
    FieldThenSplit(mode, ' ', tail, k + 2, q);
  }

  lemma TreeLineParts(e: TreeEntry)
    requires WellFormedEntry(e)
    ensures SplitRuns(TreeLine(e), 3) == [e.mode] + ([e.kind] + ([e.objectName] + [e.path]))
  {
    FourFields(e.mode, e.kind, e.objectName, e.path);
  }

  lemma {:induction false} TreeLinesFields(es: seq<TreeEntry>)
    requires forall i :: 0 <= i < |es| ==> WellFormedEntry(es[i])
    ensures LastFields(TreeLines(es), 3) == TrackedPaths(es)
    decreases |es|
  {
    if es != [] {
      var ls := TreeLines(es);
      TreeLineParts(es[0]);
      var parts := SplitRuns(ls[0], 3);
      assert parts[0] == es[0].mode && parts[|parts| - 1] == es[0].path;
      assert ls[1..] == TreeLines(es[1..]);
      TreeLinesFields(es[1..]);
    }
  }

  lemma NoSpaceNoNewline(s: string)
    requires NoSpace(s)
    ensures '\n' !in s
  {
  }

  lemma TreeLineNoNewline(e: TreeEntry)
    requires WellFormedEntry(e)
    ensures '\n' !in TreeLine(e)
  {
    NoSpaceNoNewline(e.mode);
    NoSpaceNoNewline(e.kind);
    NoSpaceNoNewline(e.objectName);
  }

  lemma {:induction false} TreeLinesNoNewline(es: seq<TreeEntry>)
    requires forall i :: 0 <= i < |es| ==> WellFormedEntry(es[i])
    ensures forall i :: 0 <= i < |es| ==> '\n' !in TreeLines(es)[i]
  {
    forall i | 0 <= i < |es| ensures '\n' !in TreeLines(es)[i] {
      TreeLineNoNewline(es[i]);
    }
  }

  /**
   * The file tree read back from a rendered `ls-tree -r` listing is exactly
   * the paths of its non-submodule entries, in listing order.
   */
  lemma FileTreeOfListing(es: seq<TreeEntry>)
    requires |es| >= 1
    requires forall i :: 0 <= i < |es| ==> WellFormedEntry(es[i])
    ensures FileTreeByRevisionFixed(Join(TreeLines(es), '\n')) == TrackedPaths(es)
  {
    var ls := TreeLines(es);
    TreeLinesNoNewline(es);
    SplitJoin(ls, '\n');
    TreeLinesFields(es);
  }

  /** An empty tree (empty output) yields one empty path, in both versions. */
  lemma FileTreeOfEmptyTree()
    ensures FileTreeByRevision("") == [""]
    ensures FileTreeByRevisionFixed("") == [""]
  {
    assert Split("", '\n') == [""];
    SplitRunsLast("", 4);
    SplitRunsLast("", 3);
  }

  /** With four splits, a path `<word><blank><rest>` comes apart into two fields. */
  lemma BlankPathParts(e: TreeEntry, w: string, c: char, rest: string)
    requires WellFormedEntry(e)
    requires e.path == w + [c] + rest && w != [] && NoSpace(w) && IsSpace(c)
    requires rest == [] || !IsSpace(rest[0])
    ensures SplitRuns(TreeLine(e), 4) == [e.mode] + ([e.kind] + ([e.objectName] + ([w] + [rest])))
  {
    TwoFields(w, c, rest);
    LineFields(e.mode, e.kind, e.objectName, e.path, 1, [w] + [rest]);
  }

  /**
   * As written, a path with white space in it loses its first word: the path
   * is a fifth field `re.split(r'\s+', line, 4)` splits once more.
   */
  lemma AsWrittenDropsFirstWord(e: TreeEntry, w: string, c: char, rest: string)
    requires WellFormedEntry(e)
    requires e.path == w + [c] + rest && w != [] && NoSpace(w) && IsSpace(c)
    requires rest == [] || !IsSpace(rest[0])
    requires e.mode != "160000"
    ensures FileTreeByRevision(TreeLine(e)) == [rest]
    ensures FileTreeByRevisionFixed(TreeLine(e)) == [e.path]
  {
    var line := TreeLine(e);
    TreeLineNoNewline(e);
    assert Split(line, '\n') == [line];
    BlankPathParts(e, w, c, rest);
    TreeLineParts(e);
  }

  /** Both versions drop the same lines, so the number of files per revision is the same. */
  lemma {:induction false} FileTreeSameLength(lines: seq<string>)
    ensures |LastFields(lines, 4)| == |LastFields(lines, 3)|
    decreases |lines|
  {
    if lines != [] {
      SplitRunsHead(lines[0], 4, 3);
      FileTreeSameLength(lines[1..]);
    }
  }

  // ---------------------------------------------------------------------------
  // add_time_files_commit and file_tree_by_revlist

  /** A revision of `git rev-list --pretty=format:"%at %T %H"` and the files of its tree. */
  datatype Revision = Revision(timestamp: string, fileTree: seq<string>, commitHash: string)

  /** `add_time_files_commit`: unpack `line.split()` into three names (ValueError otherwise), list the tree. */
  function AddTimeFilesCommit(line: string, lsTree: string -> string): (r: Result<Revision>)
    ensures r.Ok? <==> |Words(line)| == 3
    ensures r.Ok? ==> r.value.timestamp == Words(line)[0] && r.value.commitHash == Words(line)[2]
  {
    var ws := Words(line);
    if |ws| != 3 then Err(ValueError(line))
    else Ok(Revision(ws[0], FileTreeByRevision(lsTree(ws[1])), ws[2]))
  }

  /** `str.split()` takes a word and the blank after it off the front. */
  lemma WordThenBlank(w: string, rest: string)
    requires w != [] && NoSpace(w)
    ensures Words(w + (" " + rest)) == [w] + Words(rest)
  {
    WordsStep(w, " " + rest);
    assert " " + rest == [' '] + rest;
    WordsSpace(' ', rest);
  }

  /** A rev-list line `<stamp> <tree> <hash>` unpacks into its three fields. */
  lemma RevlistLineWords(stamp: string, tree: string, hash: string)
    requires stamp != [] && NoSpace(stamp) && tree != [] && NoSpace(tree) && hash != [] && NoSpace(hash)
    ensures Words(stamp + (" " + (tree + (" " + hash)))) == [stamp, tree, hash]
  {
    WordThenBlank(stamp, tree + (" " + hash));
    WordThenBlank(tree, hash);
    assert hash + [] == hash;
    WordsStep(hash, []);
  }

  /** `file_tree_by_revlist`: one revision per rev-list line, in the order of the lines. */
  function FileTreeByRevlist(lines: seq<string>, lsTree: string -> string): (r: Result<seq<Revision>>)
    ensures r.Ok? ==> |r.value| == |lines|
    ensures r.Ok? <==> forall i :: 0 <= i < |lines| ==> AddTimeFilesCommit(lines[i], lsTree).Ok?
    ensures r.Ok? ==> forall i :: 0 <= i < |lines| ==>
      AddTimeFilesCommit(lines[i], lsTree).Ok? && r.value[i] == AddTimeFilesCommit(lines[i], lsTree).value
  {
    Collect(Map((line: string) => AddTimeFilesCommit(line, lsTree), lines))
  }

  // ---------------------------------------------------------------------------
  // ext_lines_by_blob: line counts of blobs

  /** `add_linecount`: `int()` of the `wc -l` output, which ignores surrounding blanks. */
  function AddLinecount(ext: string, blob: string, wc: string -> string): (r: Result<(string, int)>)
    ensures r.Ok? <==> ParseInt(StripSpace(wc(blob))).Some?
    ensures r.Ok? ==> r.value.0 == ext
  {
    match ParseInt(StripSpace(wc(blob)))
    case None => Err(ValueError(wc(blob)))
    case Some(n) => Ok((ext, n))
  }

  /** `ext_lines_by_blob`: the line count of every `(extension, blob)` pair, in order. */
  function ExtLinesByBlob(extBlob: seq<(string, string)>, wc: string -> string): (r: Result<seq<(string, int)>>)
    ensures r.Ok? ==> |r.value| == |extBlob|
    ensures r.Ok? ==> forall i :: 0 <= i < |extBlob| ==> r.value[i].0 == extBlob[i].0
  {
    Collect(Map((eb: (string, string)) => AddLinecount(eb.0, eb.1, wc), extBlob))
  }

  // ---------------------------------------------------------------------------
  // collections.Counter and sum(…, Counter())

  /** A Counter: only positive counts are kept by its `+`. */
  type Counter = map<string, nat>

  function Get(c: Counter, a: string): nat { if a in c then c[a] else 0 }

  predicate Positive(c: Counter) { forall a :: a in c ==> c[a] > 0 }

  /** `Counter(xs)`: how often each string occurs. */
  function Tally(xs: seq<string>): (c: Counter)
    ensures Positive(c)
    ensures forall a :: a in c <==> a in xs
  {
    map a | a in multiset(xs) :: multiset(xs)[a]
  }

  /** `c + d` on Counters: counts add up, and non-positive results are dropped. */
  function Add(c: Counter, d: Counter): (s: Counter)
    ensures Positive(s)
    ensures forall a :: Get(s, a) == Get(c, a) + Get(d, a)
  {
    map a | a in c.Keys + d.Keys && Get(c, a) + Get(d, a) > 0 :: Get(c, a) + Get(d, a)
  }

  /** Two positive Counters that count everything alike are equal. */
  lemma CounterExt(c: Counter, d: Counter)
    requires Positive(c) && Positive(d)
    requires forall a :: Get(c, a) == Get(d, a)
    ensures c == d
  {
    assert forall a :: a in c <==> Get(c, a) > 0;
    assert forall a :: a in d <==> Get(d, a) > 0;
    assert c.Keys == d.Keys;
  }

  lemma AddCommutative(c: Counter, d: Counter)
    ensures Add(c, d) == Add(d, c)
  {
    CounterExt(Add(c, d), Add(d, c));
  }

  lemma AddAssociative(b: Counter, c: Counter, d: Counter)
    ensures Add(Add(b, c), d) == Add(b, Add(c, d))
  {
    CounterExt(Add(Add(b, c), d), Add(b, Add(c, d)));
  }

  lemma AddEmpty(c: Counter)
    requires Positive(c)
    ensures Add(map[], c) == c && Add(c, map[]) == c
  {
    CounterExt(Add(map[], c), c);
    CounterExt(Add(c, map[]), c);
  }

  /** `sum(counters, Counter())`: add them up from the left. */
  function Sum(cs: seq<Counter>): (s: Counter)
    ensures Positive(s)
  {
    if cs == [] then map[] else Add(Sum(cs[..|cs| - 1]), cs[|cs| - 1])
  }

  lemma SumSnoc(cs: seq<Counter>, c: Counter)
    ensures Sum(cs + [c]) == Add(Sum(cs), c)
  {
    var zs := cs + [c];
    assert zs[..|zs| - 1] == cs;
  }

  lemma {:induction false} SumConcat(xs: seq<Counter>, ys: seq<Counter>)
    ensures Sum(xs + ys) == Add(Sum(xs), Sum(ys))
    decreases |ys|
  {
    if ys == [] {
      assert xs + ys == xs;
      AddEmpty(Sum(xs));
    } else {
      var init, last := ys[..|ys| - 1], ys[|ys| - 1];
      assert ys == init + [last];
      assert xs + ys == (xs + init) + [last];
      SumSnoc(xs + init, last);
      SumSnoc(init, last);
      SumConcat(xs, init);
      AddAssociative(Sum(xs), Sum(init), last);
    }
  }

  function SumEach(chunks: seq<seq<Counter>>): (rs: seq<Counter>)
    ensures |rs| == |chunks|
    ensures forall i :: 0 <= i < |chunks| ==> rs[i] == Sum(chunks[i])
  {
    if chunks == [] then [] else [Sum(chunks[0])] + SumEach(chunks[1..])
  }

  /** Summing chunk by chunk and then the chunk sums gives the plain sum. */
  lemma {:induction false} SumChunks(chunks: seq<seq<Counter>>)
    ensures Sum(SumEach(chunks)) == Sum(Flatten(chunks))
    decreases |chunks|
  {
    if chunks != [] {
      var rs := SumEach(chunks);
      SumChunks(chunks[1..]);
      assert rs == [rs[0]] + SumEach(chunks[1..]);
      SumConcat([rs[0]], SumEach(chunks[1..]));
      SumConcat(chunks[0], Flatten(chunks[1..]));
      var one: seq<Counter> := [rs[0]];
      assert one[..0] == [];
      AddEmpty(rs[0]);
    }
  }

  lemma TallyConcat(xs: seq<string>, ys: seq<string>)
    ensures Tally(xs + ys) == Add(Tally(xs), Tally(ys))
  {
    assert multiset(xs + ys) == multiset(xs) + multiset(ys);
    forall a ensures Get(Tally(xs + ys), a) == Get(Tally(xs), a) + Get(Tally(ys), a) {
      assert a in multiset(xs + ys) <==> multiset(xs + ys)[a] > 0;
      assert a in multiset(xs) <==> multiset(xs)[a] > 0;
      assert a in multiset(ys) <==> multiset(ys)[a] > 0;
    }
    CounterExt(Tally(xs + ys), Add(Tally(xs), Tally(ys)));
  }

  function TallyEach(xss: seq<seq<string>>): (rs: seq<Counter>)
    ensures |rs| == |xss|
    ensures forall i :: 0 <= i < |xss| ==> rs[i] == Tally(xss[i])
  {
    if xss == [] then [] else [Tally(xss[0])] + TallyEach(xss[1..])
  }

  /** Summing the Counters of several lists counts the concatenated list. */
  lemma {:induction false} SumOfTallies(xss: seq<seq<string>>)
    ensures Sum(TallyEach(xss)) == Tally(Flatten(xss))
    decreases |xss|
  {
    if xss == [] {
      assert multiset(Flatten(xss)) == multiset{};
    } else {
      var rs := TallyEach(xss);
      assert rs == [rs[0]] + TallyEach(xss[1..]);
      SumOfTallies(xss[1..]);
      SumConcat([rs[0]], TallyEach(xss[1..]));
      var one: seq<Counter> := [rs[0]];
      assert one[..0] == [];
      AddEmpty(rs[0]);
      TallyConcat(xss[0], Flatten(xss[1..]));
    }
  }

  // ---------------------------------------------------------------------------
  // add_lines_by_authors and lines_by_authors

  /** `Counter(pipe_out.split('\n'))` as written: an empty file still counts one line, by author ''. */
  function BlameCounter(out: string): Counter
  {
    Tally(Split(out, '\n'))
  }

  /** The author of every blamed line: none for an empty file. */
  function BlameAuthors(out: string): seq<string>
  {
    if out == [] then [] else Split(out, '\n')
  }

  /** `add_lines_by_authors` with the empty blame of an empty file counted as no lines. */
  function BlameCounterFixed(out: string): Counter
  {
    Tally(BlameAuthors(out))
  }

  lemma BlameCounterOfEmptyFile()
    ensures BlameCounter("") == map["" := 1]
    ensures BlameCounterFixed("") == map[]
  {
    assert Split("", '\n') == [""];
    assert multiset([""]) == multiset{""};
  }

  /** For the blame of one or more lines, the fixed counter counts each author's lines. */
  lemma BlameCounterOfLines(authors: seq<string>)
    requires forall i :: 0 <= i < |authors| ==> authors[i] != [] && '\n' !in authors[i]
    ensures BlameCounterFixed(Join(authors, '\n')) == Tally(authors)
    ensures authors != [] ==> BlameCounter(Join(authors, '\n')) == Tally(authors)
  {
    if authors == [] {
      assert multiset(authors) == multiset{};
    } else {
      SplitJoin(authors, '\n');
      if |authors| == 1 {
        assert Join(authors, '\n') == authors[0];
      } else {
        assert Join(authors, '\n') == authors[0] + ['\n'] + Join(authors[1..], '\n');
      }
      assert Join(authors, '\n') != [];
    }
  }

  function BlameEach(fileTree: seq<string>, commitHash: string, blame: (string, string) -> string): (xss: seq<seq<string>>)
    ensures |xss| == |fileTree|
    ensures forall i :: 0 <= i < |fileTree| ==> xss[i] == Split(blame(commitHash, fileTree[i]), '\n')
  {
    if fileTree == [] then []
    else [Split(blame(commitHash, fileTree[0]), '\n')] + BlameEach(fileTree[1..], commitHash, blame)
  }

  /** `lines_by_authors`: the sum of the blame Counters of every file of a revision. */
  function LinesByAuthors(fileTree: seq<string>, commitHash: string, blame: (string, string) -> string): (c: Counter)
    ensures c == Tally(Flatten(BlameEach(fileTree, commitHash, blame)))
  {
    var xss := BlameEach(fileTree, commitHash, blame);
    assert Map((f: string) => BlameCounter(blame(commitHash, f)), fileTree) == TallyEach(xss);
    SumOfTallies(xss);
    Sum(Map((f: string) => BlameCounter(blame(commitHash, f)), fileTree))
  }
}
