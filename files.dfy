/**
 * GitFilesStatistics: the size, file count and line count of the files at
 * the end commit, per extension (`_collect_files`), and the history of the
 * number of files and of the lines owned by each author, commit by commit
 * (`_collect_revlist`).  The outputs of `git ls-tree`, `git cat-file | wc -l`
 * and `git blame` are parameters.
 */
module Files {
  import opened Wrappers
  import opened Text
  import opened Parallel

  // ---------------------------------------------------------------------------
  // The extension rule

  lemma {:induction false} JoinEndsWithLast(parts: seq<string>, sep: char)
    requires |parts| >= 1
    ensures EndsWith(Join(parts, sep), parts[|parts| - 1])
    decreases |parts|
  {
    if |parts| > 1 {
      JoinEndsWithLast(parts[1..], sep);
      var j := Join(parts[1..], sep);
      var s := parts[0] + [sep] + j;
      assert s[|s| - |j|..] == j;
    }
  }

  /** `fullpath.split('/')[-1]`: the last component of a path. */
  function BaseName(fullpath: string): (name: string)
    ensures '/' !in name
    ensures EndsWith(fullpath, name)
    ensures '/' !in fullpath ==> name == fullpath
  {
    var parts := Split(fullpath, '/');
    JoinEndsWithLast(parts, '/');
    parts[|parts| - 1]
  }

  /**
   * The extension of a file name: what follows its last dot, unless there is
   * no dot, the only dots lead the name, or the extension is longer than
   * `maxExtLength`; then the empty string.
   */
  function Extension(filename: string, maxExtLength: int): (ext: string)
    ensures ext != [] ==> '.' !in ext && |ext| <= maxExtLength
    ensures ext != [] ==>
      && |ext| + 1 < |filename|
      && filename[|filename| - |ext| - 1] == '.'
      && filename[|filename| - |ext|..] == ext
    ensures '.' !in filename ==> ext == []
  {
    var firstDot := Find(filename, '.');
    var lastDot := RFind(filename, '.');
    if firstDot == -1 || lastDot == 0 || |filename| - lastDot - 1 > maxExtLength then ""
    else filename[lastDot + 1..]
  }

  /** A name `<stem>.<ext>`: its extension is `ext`, unless the stem is empty or `ext` too long. */
  lemma ExtensionOf(stem: string, ext: string, maxExtLength: int)
    requires '.' !in ext
    ensures Extension(stem + "." + ext, maxExtLength)
         == if stem == [] || |ext| > maxExtLength then "" else ext
  {
    var name := stem + "." + ext;
    assert name[|stem|] == '.';
    var last := RFind(name, '.');
    assert last == |stem|;
    assert name[|stem| + 1..] == ext;
  }

  // ---------------------------------------------------------------------------
  // One line of `git ls-tree -r -l`: `<mode> <type> <object> <size>\t<path>`

  /** What `_add_ext_blob` keeps of a file: its extension, its blob and its size. */
  datatype Blob = Blob(ext: string, blobId: string, size: int)

  /**
   * `_add_ext_blob` without its side effect: nothing for an empty line or a
   * submodule (mode 160000, size `-`); otherwise the blob, or the error that
   * indexing the fields or `int(size)` raises.
   */
  function ParseBlobLine(line: string, maxExtLength: int): (r: Result<Option<Blob>>)
    ensures line == [] ==> r == Ok(None)
    ensures r.Ok? && r.value.Some? ==> |SplitRuns(line, 4)| == 5
    ensures r.Ok? && r.value.Some? ==> r.value.value.blobId == SplitRuns(line, 4)[2]
  {
    if line == [] then Ok(None)
    else
      var parts := SplitRuns(line, 4);
      if parts[0] == "160000" && |parts| < 4 then Err(IndexError("parts[3]"))
      else if parts[0] == "160000" && parts[3] == "-" then Ok(None)
      else if |parts| < 3 then Err(IndexError("parts[2]"))
      else if |parts| < 4 then Err(IndexError("parts[3]"))
      else
        match ParseInt(parts[3])
        case None => Err(ValueError(parts[3]))
        case Some(size) =>
          if |parts| < 5 then Err(IndexError("parts[4]"))
          else Ok(Some(Blob(Extension(BaseName(parts[4]), maxExtLength), parts[2], size)))
  }

  /** A line as git prints it: the size is right-aligned, so blanks of any number precede it. */
  function FileLine(mode: string, kind: string, obj: string, pad: string, size: string, path: string): string
  {
    mode + " " + (kind + " " + (obj + pad + (size + "\t" + path)))
  }

  lemma SizeFields(obj: string, pad: string, size: string, path: string)
    requires obj != [] && NoSpace(obj) && pad != [] && AllSpace(pad)
    requires size != [] && NoSpace(size) && path != [] && !IsSpace(path[0])
    ensures SplitRuns(obj + pad + (size + "\t" + path), 2) == [obj] + ([size] + [path])
    ensures (obj + pad + (size + "\t" + path))[0] == obj[0] && !IsSpace(obj[0])
  {
    var tail := size + "\t" + path;
    TwoFields(size, '\t', path);
    assert tail[0] == size[0];
    SplitRunsStep(obj, pad, tail, 2);
  }

  lemma BlobFields(mode: string, kind: string, obj: string, pad: string, size: string, path: string)
    requires mode != [] && NoSpace(mode) && kind != [] && NoSpace(kind)
    requires obj != [] && NoSpace(obj) && pad != [] && AllSpace(pad)
    requires size != [] && NoSpace(size) && path != [] && !IsSpace(path[0])
    ensures SplitRuns(FileLine(mode, kind, obj, pad, size, path), 4)
         == [mode] + ([kind] + ([obj] + ([size] + [path])))
  {
    var t1 := obj + pad + (size + "\t" + path);
    var q1 := [obj] + ([size] + [path]);
    SizeFields(obj, pad, size, path);
    FieldThenSplit(kind, ' ', t1, 2, q1);
    FieldThenSplit(mode, ' ', kind + " " + t1, 3, [kind] + q1);
  }

  /** A file line gives back its blob, its size and the extension of its base name. */
  lemma FileLineParsed(mode: string, kind: string, obj: string, pad: string, size: nat, path: string, maxExtLength: int)
    requires mode != [] && NoSpace(mode) && mode != "160000" && kind != [] && NoSpace(kind)
    requires obj != [] && NoSpace(obj) && pad != [] && AllSpace(pad)
    requires path != [] && !IsSpace(path[0])
    ensures ParseBlobLine(FileLine(mode, kind, obj, pad, NatToString(size), path), maxExtLength)
         == Ok(Some(Blob(Extension(BaseName(path), maxExtLength), obj, size)))
  {
    var digits := NatToString(size);
    assert NoSpace(digits) by {
      forall i | 0 <= i < |digits| ensures !IsSpace(digits[i]) { assert IsDigit(digits[i]); }
    }
    BlobFields(mode, kind, obj, pad, digits, path);
    var parts := SplitRuns(FileLine(mode, kind, obj, pad, digits, path), 4);
    assert |parts| == 5 && parts[0] == mode && parts[2] == obj && parts[3] == digits && parts[4] == path;
    assert ParseInt(digits) == Some(size);
  }

  /** A submodule line is skipped. */
  lemma SubmoduleLineSkipped(kind: string, obj: string, pad: string, path: string, maxExtLength: int)
    requires kind != [] && NoSpace(kind) && obj != [] && NoSpace(obj) && pad != [] && AllSpace(pad)
    requires path != [] && !IsSpace(path[0])
    ensures ParseBlobLine(FileLine("160000", kind, obj, pad, "-", path), maxExtLength) == Ok(None)
  {
    BlobFields("160000", kind, obj, pad, "-", path);
  }

  /** The files among parsed lines, in order, or the first error. */
  function Gather(ps: seq<Result<Option<Blob>>>): (r: Result<seq<Blob>>)
    ensures r.Ok? ==> |r.value| <= |ps|
  {
    if ps == [] then Ok([])
    else
      match Gather(ps[..|ps| - 1])
      case Err(e) => Err(e)
      case Ok(bs) =>
        match ps[|ps| - 1]
        case Err(e) => Err(e)
        case Ok(_) => Ok(bs + BlobOf(ps[|ps| - 1]))
  }

  /** Lines are gathered exactly when each of them parses. */
  lemma {:induction false} GatherOk(ps: seq<Result<Option<Blob>>>)
    ensures Gather(ps).Ok? <==> forall i :: 0 <= i < |ps| ==> ps[i].Ok?
    decreases |ps|
  {
    if ps != [] {
      var init := ps[..|ps| - 1];
      GatherOk(init);
      assert forall i :: 0 <= i < |init| ==> init[i] == ps[i];
    }
  }

  function ParsedLines(lines: seq<string>, maxExtLength: int): (ps: seq<Result<Option<Blob>>>)
    ensures |ps| == |lines| && forall i :: 0 <= i < |lines| ==> ps[i] == ParseBlobLine(lines[i], maxExtLength)
  {
    Map((line: string) => ParseBlobLine(line, maxExtLength), lines)
  }

  /** The files of a listing, in order, or the first error a line of it raises. */
  function Blobs(lines: seq<string>, maxExtLength: int): (r: Result<seq<Blob>>)
  {
    Gather(ParsedLines(lines, maxExtLength))
  }

  /** The listing is collected exactly when every line of it parses. */
  lemma BlobsOk(lines: seq<string>, maxExtLength: int)
    ensures Blobs(lines, maxExtLength).Ok? <==> forall i :: 0 <= i < |lines| ==> ParseBlobLine(lines[i], maxExtLength).Ok?
  {
    GatherOk(ParsedLines(lines, maxExtLength));
  }

  /** A line that does not parse stops the listing. */
  lemma BlobsErrAt(lines: seq<string>, maxExtLength: int, i: nat)
    requires i < |lines| && ParseBlobLine(lines[i], maxExtLength).Err?
    ensures Blobs(lines, maxExtLength).Err?
  {
    BlobsOk(lines, maxExtLength);
  }

  /** What `_add_ext_blob` returns for a parsed line. */
  function ExtBlobOf(p: Result<Option<Blob>>): (r: Result<Option<(string, string)>>)
    ensures r.Ok? <==> p.Ok?
    ensures r.Err? ==> r.error == p.error
    ensures r.Ok? ==> (r.value.Some? <==> p.value.Some?)
    ensures r.Ok? && r.value.Some? ==> r.value.value == (p.value.value.ext, p.value.value.blobId)
  {
    match p
    case Err(e) => Err(e)
    case Ok(None) => Ok(None)
    case Ok(Some(b)) => Ok(Some((b.ext, b.blobId)))
  }

  /** The file of a parsed line, if it is one. */
  function BlobOf(p: Result<Option<Blob>>): seq<Blob>
  {
    if p.Ok? && p.value.Some? then [p.value.value] else []
  }

  function SizeOf(p: Result<Option<Blob>>): int
  {
    if p.Ok? && p.value.Some? then p.value.value.size else 0
  }

  /** The `(ext, blob_id)` pairs handed to `ext_lines_by_blob`. */
  function ExtBlobs(bs: seq<Blob>): (ps: seq<(string, string)>)
    ensures |ps| == |bs|
    ensures forall i :: 0 <= i < |bs| ==> ps[i] == (bs[i].ext, bs[i].blobId)
  {
    Map((b: Blob) => (b.ext, b.blobId), bs)
  }

  function TotalSize(bs: seq<Blob>): int
  {
    if bs == [] then 0 else TotalSize(bs[..|bs| - 1]) + bs[|bs| - 1].size
  }
  /** One more parsed line of a listing that has parsed so far. */
  lemma GatherPrefix(all: seq<Result<Option<Blob>>>, i: nat, blobs: seq<Blob>)
    requires i < |all| && Gather(all[..i]) == Ok(blobs) && all[i].Ok?
    ensures Gather(all[..i + 1]) == Ok(blobs + BlobOf(all[i]))
  {
    assert all[..i + 1][..i] == all[..i];
  }

  /** One more parsed line: the sizes and the pairs grow by its file, if it is one. */
  lemma GatherStep(blobs: seq<Blob>, p: Result<Option<Blob>>)
    requires p.Ok?
    ensures TotalSize(blobs + BlobOf(p)) == TotalSize(blobs) + SizeOf(p)
    ensures |blobs + BlobOf(p)| == |blobs| + (if p.value.Some? then 1 else 0)
    ensures ExtBlobs(blobs + BlobOf(p)) == ExtBlobs(blobs) + (if p.value.Some? then [ExtBlobOf(p).value.value] else [])
  {
    if p.value.Some? {
      assert (blobs + BlobOf(p))[..|blobs|] == blobs;
    } else {
      assert blobs + BlobOf(p) == blobs;
    }
  }


  // ---------------------------------------------------------------------------
  // The per-extension table

  datatype ExtensionCount = ExtensionCount(files: nat, lines: int)

  function CountOf(m: map<string, ExtensionCount>, ext: string): ExtensionCount
  {
    if ext in m then m[ext] else ExtensionCount(0, 0)
  }

  /** `_update_extensions` as a fold over `(ext, lines)` pairs, in order. */
  function UpdatedExtensions(m: map<string, ExtensionCount>, extLines: seq<(string, int)>): map<string, ExtensionCount>
  {
    if extLines == [] then m
    else
      var u := UpdatedExtensions(m, extLines[..|extLines| - 1]);
      var (ext, lines) := extLines[|extLines| - 1];
      var c := CountOf(u, ext);
      u[ext := ExtensionCount(c.files + 1, c.lines + lines)]
  }

  /** How many pairs are about `ext`. */
  function FilesWith(extLines: seq<(string, int)>, ext: string): nat
  {
    if extLines == [] then 0
    else FilesWith(extLines[..|extLines| - 1], ext) + (if extLines[|extLines| - 1].0 == ext then 1 else 0)
  }

  /** The lines of the pairs about `ext`. */
  function LinesWith(extLines: seq<(string, int)>, ext: string): int
  {
    if extLines == [] then 0
    else LinesWith(extLines[..|extLines| - 1], ext) + (if extLines[|extLines| - 1].0 == ext then extLines[|extLines| - 1].1 else 0)
  }

  /**
   * Each extension's `files` grows by the number of its pairs and its `lines`
   * by their lines; the table gains exactly the extensions of the pairs.
   */
  lemma {:induction false} ExtensionCounts(m: map<string, ExtensionCount>, extLines: seq<(string, int)>, ext: string)
    ensures CountOf(UpdatedExtensions(m, extLines), ext)
         == ExtensionCount(CountOf(m, ext).files + FilesWith(extLines, ext), CountOf(m, ext).lines + LinesWith(extLines, ext))
    ensures ext in UpdatedExtensions(m, extLines) <==> ext in m || FilesWith(extLines, ext) > 0
    decreases |extLines|
  {
    if extLines != [] {
      ExtensionCounts(m, extLines[..|extLines| - 1], ext);
    }
  }

  /** Two listings one after the other update the table as their concatenation does. */
  lemma {:induction false} ExtensionsConcat(m: map<string, ExtensionCount>, a: seq<(string, int)>, b: seq<(string, int)>)
    ensures UpdatedExtensions(UpdatedExtensions(m, a), b) == UpdatedExtensions(m, a + b)
    decreases |b|
  {
    if b == [] {
      assert a + b == a;
    } else {
      var ab := a + b;
      assert ab[..|ab| - 1] == a + b[..|b| - 1];
      assert ab[|ab| - 1] == b[|b| - 1];
      ExtensionsConcat(m, a, b[..|b| - 1]);
    }
  }

  // ---------------------------------------------------------------------------
  // Deltas against the previous revision, and dictionaries written in order

  /** `x - previous x` for each element, the first previous value being 0. */
  function Deltas(xs: seq<int>): (ds: seq<int>)
    ensures |ds| == |xs|
  {
    if xs == [] then []
    else Deltas(xs[..|xs| - 1]) + [xs[|xs| - 1] - (if |xs| == 1 then 0 else xs[|xs| - 2])]
  }

  lemma {:induction false} DeltaAt(xs: seq<int>, i: nat)
    requires i < |xs|
    ensures Deltas(xs)[i] == xs[i] - (if i == 0 then 0 else xs[i - 1])
    decreases |xs|
  {
    if i < |xs| - 1 {
      DeltaAt(xs[..|xs| - 1], i);
    }
  }

  function SumInts(xs: seq<int>): int
  {
    if xs == [] then 0 else SumInts(xs[..|xs| - 1]) + xs[|xs| - 1]
  }

  /** The deltas add up to the last value. */
  lemma {:induction false} DeltasTelescope(xs: seq<int>)
    ensures SumInts(Deltas(xs)) == if xs == [] then 0 else xs[|xs| - 1]
    decreases |xs|
  {
    if xs != [] {
      var ds := Deltas(xs);
      assert ds[..|ds| - 1] == Deltas(xs[..|xs| - 1]);
      DeltasTelescope(xs[..|xs| - 1]);
    }
  }

  /** A dictionary after `d[k] = v` for each pair, in order. */
  function Store<V>(m: map<string, V>, kvs: seq<(string, V)>): (r: map<string, V>)
    ensures r.Keys == m.Keys + set i | 0 <= i < |kvs| :: kvs[i].0
  {
    if kvs == [] then m
    else
      var r := Store(m, kvs[..|kvs| - 1])[kvs[|kvs| - 1].0 := kvs[|kvs| - 1].1];
      assert forall i :: 0 <= i < |kvs| - 1 ==> kvs[..|kvs| - 1][i] == kvs[i];
      r
  }

  /** The value under a key is the one the last pair with that key wrote, or the old one. */
  lemma {:induction false} StoreLatest<V>(m: map<string, V>, kvs: seq<(string, V)>, i: nat)
    requires i < |kvs|
    requires forall j :: i < j < |kvs| ==> kvs[j].0 != kvs[i].0
    ensures Store(m, kvs)[kvs[i].0] == kvs[i].1
    decreases |kvs|
  {
    if i < |kvs| - 1 {
      StoreLatest(m, kvs[..|kvs| - 1], i);
    }
  }

  lemma {:induction false} StoreUntouched<V>(m: map<string, V>, kvs: seq<(string, V)>, k: string)
    requires k in m
    requires forall j :: 0 <= j < |kvs| ==> kvs[j].0 != k
    ensures Store(m, kvs)[k] == m[k]
    decreases |kvs|
  {
    if kvs != [] {
      StoreUntouched(m, kvs[..|kvs| - 1], k);
    }
  }

  lemma StorePrefix<V>(m: map<string, V>, kvs: seq<(string, V)>, i: nat)
    requires i < |kvs|
    ensures Store(m, kvs[..i + 1]) == Store(m, kvs[..i])[kvs[i].0 := kvs[i].1]
  {
    assert kvs[..i + 1][..i] == kvs[..i];
  }

  // ---------------------------------------------------------------------------
  // The number of files at each revision

  datatype FileCount = FileCount(files: nat, deltaFiles: int)

  function TreeSizes(revs: seq<Revision>): (ns: seq<int>)
    ensures |ns| == |revs| && forall i :: 0 <= i < |revs| ==> ns[i] == |revs[i].fileTree|
  {
    Map((r: Revision) => |r.fileTree|, revs)
  }

  /** What `_update_files_by_stamp` writes, in order: the file count and its change under `<stamp> <repository>`. */
  function FileEntries(revs: seq<Revision>, repository: string): (es: seq<(string, FileCount)>)
    ensures |es| == |revs|
  {
    var ds := Deltas(TreeSizes(revs));
    seq(|revs|, i requires 0 <= i < |revs| =>
      (StampKey(revs[i].timestamp, repository), FileCount(|revs[i].fileTree|, ds[i])))
  }

  /** Over a repository's revisions in order, the file deltas add up to the last file count. */
  lemma FileDeltasTelescope(revs: seq<Revision>, repository: string)
    ensures SumInts(seq(|revs|, i requires 0 <= i < |revs| => FileEntries(revs, repository)[i].1.deltaFiles))
         == if revs == [] then 0 else |revs[|revs| - 1].fileTree|
  {
    var es := FileEntries(revs, repository);
    assert seq(|revs|, i requires 0 <= i < |revs| => es[i].1.deltaFiles) == Deltas(TreeSizes(revs));
    DeltasTelescope(TreeSizes(revs));
  }

  /** Each file delta is the change from the previous revision (from 0 for the first). */
  lemma FileDeltaAt(revs: seq<Revision>, repository: string, i: nat)
    requires i < |revs|
    ensures FileEntries(revs, repository)[i].1
         == FileCount(|revs[i].fileTree|, |revs[i].fileTree| - (if i == 0 then 0 else |revs[i - 1].fileTree|))
  {
    DeltaAt(TreeSizes(revs), i);
  }

  // ---------------------------------------------------------------------------
  // The lines of each author at each revision

  datatype AuthorLines = AuthorLines(lines: nat, deltaLines: int)

  /** An author's lines now, and their change since the previous revision. */
  function AuthorLinesOf(prev: Counter, cur: Counter, a: string): AuthorLines
  {
    AuthorLines(Get(cur, a), Get(cur, a) as int - Get(prev, a))
  }

  /**
   * The table `_update_lines_by_date_by_author` writes for one revision:
   * every author of this or the previous revision, with their lines now and
   * the change since then.
   */
  function AuthorLinesDelta(prev: Counter, cur: Counter): map<string, AuthorLines>
  {
    map a | a in prev.Keys + cur.Keys :: AuthorLinesOf(prev, cur, a)
  }

  /** The three loops over the authors who left, stayed and arrived, building the table above. */
  method AuthorLinesEntry(prev: Counter, cur: Counter) returns (entry: map<string, AuthorLines>)
    ensures entry == AuthorLinesDelta(prev, cur)
  {
    entry := map[];
    var gone := prev.Keys - cur.Keys;
    while gone != {}
      invariant gone <= prev.Keys - cur.Keys
      invariant entry.Keys == (prev.Keys - cur.Keys) - gone
      invariant forall a :: a in entry ==> entry[a] == AuthorLinesOf(prev, cur, a)
      decreases gone
    {
      var a :| a in gone;
      entry := entry[a := AuthorLines(0, -(prev[a] as int))];
      gone := gone - {a};
    }
    var kept := cur.Keys * prev.Keys;
    while kept != {}
      invariant kept <= cur.Keys * prev.Keys
      invariant entry.Keys == (prev.Keys - cur.Keys) + ((cur.Keys * prev.Keys) - kept)
      invariant forall a :: a in entry ==> entry[a] == AuthorLinesOf(prev, cur, a)
      decreases kept
    {
      var a :| a in kept;
      entry := entry[a := AuthorLines(cur[a], cur[a] as int - prev[a])];
      kept := kept - {a};
    }
    var added := cur.Keys - prev.Keys;
    while added != {}
      invariant added <= cur.Keys - prev.Keys
      invariant entry.Keys == (prev.Keys + cur.Keys) - added
      invariant forall a :: a in entry ==> entry[a] == AuthorLinesOf(prev, cur, a)
      decreases added
    {
      var a :| a in added;
      entry := entry[a := AuthorLines(cur[a], cur[a])];
      added := added - {a};
    }
  }

  /** The lines counters at each revision: `lines_by_authors` of each revision, with its stamp. */
  function Snapshots(revs: seq<Revision>, blame: (string, string) -> string): (ss: seq<(string, Counter)>)
    ensures |ss| == |revs|
  {
    seq(|revs|, i requires 0 <= i < |revs| =>
      (revs[i].timestamp, LinesByAuthors(revs[i].fileTree, revs[i].commitHash, blame)))
  }

  function PrevCounter(snaps: seq<(string, Counter)>, i: nat): Counter
    requires i <= |snaps|
  {
    if i == 0 then map[] else snaps[i - 1].1
  }

  /** What `_update_lines_by_date_by_author` writes, in order. */
  function LinesEntries(snaps: seq<(string, Counter)>, repository: string): (es: seq<(string, map<string, AuthorLines>)>)
    ensures |es| == |snaps|
  {
    seq(|snaps|, i requires 0 <= i < |snaps| =>
      (StampKey(snaps[i].0, repository), AuthorLinesDelta(PrevCounter(snaps, i), snaps[i].1)))
  }

  function DeltaLinesOf(entry: map<string, AuthorLines>, a: string): int
  {
    if a in entry then entry[a].deltaLines else 0
  }

  /** Over a repository's revisions in order, an author's line deltas add up to their lines at the last one. */
  lemma AuthorDeltasTelescope(snaps: seq<(string, Counter)>, repository: string, a: string)
    ensures SumInts(seq(|snaps|, i requires 0 <= i < |snaps| => DeltaLinesOf(LinesEntries(snaps, repository)[i].1, a)))
         == if snaps == [] then 0 else Get(snaps[|snaps| - 1].1, a)
  {
    var es := LinesEntries(snaps, repository);
    var xs := seq(|snaps|, i requires 0 <= i < |snaps| => Get(snaps[i].1, a) as int);
    var ds := seq(|snaps|, i requires 0 <= i < |snaps| => DeltaLinesOf(es[i].1, a));
    forall i | 0 <= i < |snaps|
      ensures ds[i] == Deltas(xs)[i]
    {
      DeltaAt(xs, i);
    }
    assert ds == Deltas(xs);
    DeltasTelescope(xs);
  }

  /** An empty history (no commit in the range) has one empty line, which does not unpack: ValueError. */
  lemma EmptyHistoryRaises(lsTree: string -> string)
    ensures FileTreeByRevlist(Reversed(Split(StripSpace(""), '\n')), lsTree).Err?
  {
    var lines := Reversed(Split(StripSpace(""), '\n'));
    assert lines == [""];
    assert Words("") == [];
  }

  // ---------------------------------------------------------------------------
  // The collector

  class GitFilesStatistics {
    var totalSize: int
    var totalFiles: nat
    var extensions: map<string, ExtensionCount>
    var filesByStamp: map<string, FileCount>
    var linesByDateByAuthor: map<string, map<string, AuthorLines>>
    const maxExtLength: int

    constructor(maxExtLength: int)
      ensures this.maxExtLength == maxExtLength
      ensures totalSize == 0 && totalFiles == 0
      ensures extensions == map[] && filesByStamp == map[] && linesByDateByAuthor == map[]
    {
      this.maxExtLength := maxExtLength;
      totalSize := 0;
      totalFiles := 0;
      extensions := map[];
      filesByStamp := map[];
      linesByDateByAuthor := map[];
    }

    /** `_add_ext_blob`: a file adds its size and one to the totals and yields `(ext, blob_id)`. */
    method AddExtBlob(line: string) returns (r: Result<Option<(string, string)>>)
      modifies this`totalSize, this`totalFiles
      ensures r == ExtBlobOf(ParseBlobLine(line, maxExtLength))
      ensures totalSize == old(totalSize) + SizeOf(ParseBlobLine(line, maxExtLength))
      ensures totalFiles == old(totalFiles) + |BlobOf(ParseBlobLine(line, maxExtLength))|
    {
      var p := ParseBlobLine(line, maxExtLength);
      match p
      case Err(e) => r := Err(e);
      case Ok(None) => r := Ok(None);
      case Ok(Some(b)) =>
        totalSize := totalSize + b.size;
        totalFiles := totalFiles + 1;
        r := Ok(Some((b.ext, b.blobId)));
    }

    /** `_update_extensions`: one more file and its lines for each pair's extension. */
    method UpdateExtensions(extLines: seq<(string, int)>)
      modifies this
      ensures extensions == UpdatedExtensions(old(extensions), extLines)
      ensures totalSize == old(totalSize) && totalFiles == old(totalFiles)
      ensures filesByStamp == old(filesByStamp) && linesByDateByAuthor == old(linesByDateByAuthor)
    {
      var i := 0;
      while i < |extLines|
        invariant 0 <= i <= |extLines|
        invariant extensions == UpdatedExtensions(old(extensions), extLines[..i])
        invariant totalSize == old(totalSize) && totalFiles == old(totalFiles)
        invariant filesByStamp == old(filesByStamp) && linesByDateByAuthor == old(linesByDateByAuthor)
      {
        var (ext, lines) := extLines[i];
        if ext !in extensions {
          extensions := extensions[ext := ExtensionCount(0, 0)];
        }
        extensions := extensions[ext := ExtensionCount(extensions[ext].files + 1, extensions[ext].lines + lines)];
        assert extLines[..i + 1][..i] == extLines[..i];
        i := i + 1;
      }
      assert extLines[..i] == extLines;
    }

    /** The list comprehension of `_collect_files`: `_add_ext_blob` on every line, in order, keeping the files. */
    method AddExtBlobs(lines: seq<string>) returns (r: Result<seq<(string, string)>>)
      modifies this`totalSize, this`totalFiles
      ensures var bs := Blobs(lines, maxExtLength);
        && (r.Ok? <==> bs.Ok?)
        && (bs.Ok? ==> r.value == ExtBlobs(bs.value))
        && (bs.Ok? ==> totalFiles == old(totalFiles) + |bs.value| && totalSize == old(totalSize) + TotalSize(bs.value))
    {
      var pairs: seq<(string, string)> := [];
      ghost var all := ParsedLines(lines, maxExtLength);
      ghost var blobs: seq<Blob> := [];
      var i := 0;
      while i < |lines|
        invariant 0 <= i <= |lines|
        invariant Gather(all[..i]) == Ok(blobs)
        invariant pairs == ExtBlobs(blobs)
        invariant totalFiles == old(totalFiles) + |blobs|
        invariant totalSize == old(totalSize) + TotalSize(blobs)
      {
        ghost var p := all[i];
        assert p == ParseBlobLine(lines[i], maxExtLength);
        var b := AddExtBlob(lines[i]);
        if b.Err? {
          BlobsErrAt(lines, maxExtLength, i);
          return Err(b.error);
        }
        GatherPrefix(all, i, blobs);
        GatherStep(blobs, p);
        blobs := blobs + BlobOf(p);
        if b.value.Some? {
          pairs := pairs + [b.value.value];
        }
        i := i + 1;
      }
      assert all[..i] == all;
      r := Ok(pairs);
    }

    /**
     * `_collect_files`: every line of the listing through `_add_ext_blob`,
     * the line count of each file's blob, then the extension table.
     */
    method CollectFiles(listing: string, wc: string -> string) returns (r: Result<()>)
      modifies this
      ensures var bs := Blobs(Split(listing, '\n'), maxExtLength);
        && (r.Ok? <==> bs.Ok? && ExtLinesByBlob(ExtBlobs(bs.value), wc).Ok?)
        && (bs.Ok? ==> totalFiles == old(totalFiles) + |bs.value| && totalSize == old(totalSize) + TotalSize(bs.value))
        && (r.Ok? ==> extensions == UpdatedExtensions(old(extensions), ExtLinesByBlob(ExtBlobs(bs.value), wc).value))
      ensures r.Err? ==> extensions == old(extensions)
      ensures filesByStamp == old(filesByStamp) && linesByDateByAuthor == old(linesByDateByAuthor)
    {
      var lines := Split(listing, '\n');
      ghost var bs := Blobs(lines, maxExtLength);
      var extBlob := AddExtBlobs(lines);
      if extBlob.Err? {
        assert bs.Err?;
        return Err(extBlob.error);
      }
      assert bs.Ok? && extBlob.value == ExtBlobs(bs.value);
      var extLines := ExtLinesByBlob(extBlob.value, wc);
      if extLines.Err? {
        return Err(extLines.error);
      }
      UpdateExtensions(extLines.value);
      r := Ok(());
    }

    /** `_update_files_by_stamp`: under `<stamp> <repository>`, the file count and its change, revision by revision. */
    method UpdateFilesByStamp(repository: string, revs: seq<Revision>)
      modifies this
      ensures filesByStamp == Store(old(filesByStamp), FileEntries(revs, repository))
      ensures totalSize == old(totalSize) && totalFiles == old(totalFiles) && extensions == old(extensions)
      ensures linesByDateByAuthor == old(linesByDateByAuthor)
    {
      ghost var es := FileEntries(revs, repository);
      var prevNumFiles := 0;
      var i := 0;
      while i < |revs|
        invariant 0 <= i <= |revs|
        invariant filesByStamp == Store(old(filesByStamp), es[..i])
        invariant prevNumFiles == if i == 0 then 0 else |revs[i - 1].fileTree|
        invariant totalSize == old(totalSize) && totalFiles == old(totalFiles) && extensions == old(extensions)
        invariant linesByDateByAuthor == old(linesByDateByAuthor)
      {
        var stampKey := StampKey(revs[i].timestamp, repository);
        var numFiles := |revs[i].fileTree|;
        FileDeltaAt(revs, repository, i);
        StorePrefix(old(filesByStamp), es, i);
        filesByStamp := filesByStamp[stampKey := FileCount(numFiles, numFiles - prevNumFiles)];
        prevNumFiles := numFiles;
        i := i + 1;
      }
      assert es[..i] == es;
    }

    /** `_update_lines_by_date_by_author`: under `<stamp> <repository>`, each author's lines and their change. */
    method UpdateLinesByDateByAuthor(repository: string, snaps: seq<(string, Counter)>)
      modifies this
      ensures linesByDateByAuthor == Store(old(linesByDateByAuthor), LinesEntries(snaps, repository))
      ensures totalSize == old(totalSize) && totalFiles == old(totalFiles) && extensions == old(extensions)
      ensures filesByStamp == old(filesByStamp)
    {
      ghost var es := LinesEntries(snaps, repository);
      var prevLinesByAuthors: Counter := map[];
      var i := 0;
      while i < |snaps|
        invariant 0 <= i <= |snaps|
        invariant linesByDateByAuthor == Store(old(linesByDateByAuthor), es[..i])
        invariant prevLinesByAuthors == PrevCounter(snaps, i)
        invariant totalSize == old(totalSize) && totalFiles == old(totalFiles) && extensions == old(extensions)
        invariant filesByStamp == old(filesByStamp)
      {
        var (timestamp, linesByAuthors) := snaps[i];
        var stampKey := StampKey(timestamp, repository);
        var entry := AuthorLinesEntry(prevLinesByAuthors, linesByAuthors);
        StorePrefix(old(linesByDateByAuthor), es, i);
        linesByDateByAuthor := linesByDateByAuthor[stampKey := entry];
        prevLinesByAuthors := linesByAuthors;
        i := i + 1;
      }
      assert es[..i] == es;
    }

    /**
     * `_collect_revlist`: the revisions from the oldest on, with their file
     * trees, then the file counts and, when `linesByDate` is set, the lines of
     * each author at each revision.  A revision line that does not hold three
     * names raises before anything is written.
     */
    method CollectRevlist(repository: string, revlist: string, lsTree: string -> string,
                          blame: (string, string) -> string, linesByDate: bool) returns (r: Result<()>)
      modifies this
      ensures var revs := FileTreeByRevlist(Reversed(Split(StripSpace(revlist), '\n')), lsTree);
        && (r.Ok? <==> revs.Ok?)
        && (r.Ok? ==> filesByStamp == Store(old(filesByStamp), FileEntries(revs.value, repository)))
        && (r.Ok? && linesByDate ==>
              linesByDateByAuthor == Store(old(linesByDateByAuthor), LinesEntries(Snapshots(revs.value, blame), repository)))
      ensures r.Err? ==> filesByStamp == old(filesByStamp)
      ensures !(r.Ok? && linesByDate) ==> linesByDateByAuthor == old(linesByDateByAuthor)
      ensures totalSize == old(totalSize) && totalFiles == old(totalFiles) && extensions == old(extensions)
    {
      var lines := Reversed(Split(StripSpace(revlist), '\n'));
      var timeFilesCommit := FileTreeByRevlist(lines, lsTree);
      if timeFilesCommit.Err? {
        return Err(timeFilesCommit.error);
      }
      UpdateFilesByStamp(repository, timeFilesCommit.value);
      if linesByDate {
        var snaps := Snapshots(timeFilesCommit.value, blame);
        UpdateLinesByDateByAuthor(repository, snaps);
      }
      r := Ok(());
    }
  }
}
