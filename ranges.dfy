/**
 * The revision-range arguments every git command of the collector is given:
 * `get_commit_range`, `get_log_range` and `get_prefixed_path` of
 * GitStatisticsBase.  An option that is unset (None or the empty string in
 * the configuration, both false in Python) is the empty string here.
 */
module Ranges {
  import opened Text

  /** The configuration entries the range helpers read. */
  datatype Configuration = Configuration(startDate: string, commitBegin: string, commitEnd: string)

  /** `get_prefixed_path`: nothing for the top directory, else `-- <subdir>`. */
  function PrefixedPath(subdir: string): (r: string)
    ensures r == [] <==> subdir == []
    ensures r != [] ==> StartsWith(r, "-- ") && r[3..] == subdir
  {
    if subdir == [] then "" else "-- " + subdir
  }

  /**
   * `get_commit_range`: the default range when no end commit is configured;
   * otherwise the end commit alone, or `begin..end` when a begin commit is
   * configured and the caller asked for the whole range.
   */
  function CommitRange(conf: Configuration, defaultRange: string, endOnly: bool): (r: string)
    ensures conf.commitEnd == [] ==> r == defaultRange
    ensures conf.commitEnd != [] ==> EndsWith(r, conf.commitEnd)
    ensures conf.commitEnd != [] && (endOnly || conf.commitBegin == []) ==> r == conf.commitEnd
    ensures conf.commitEnd != [] && !endOnly && conf.commitBegin != [] ==>
      && StartsWith(r, conf.commitBegin + "..")
      && r[|conf.commitBegin| + 2..] == conf.commitEnd
  {
    if conf.commitEnd != [] then
      if endOnly || conf.commitBegin == [] then conf.commitEnd
      else
        var r := conf.commitBegin + ".." + conf.commitEnd;
        assert r[|r| - |conf.commitEnd|..] == conf.commitEnd;
        assert r[..|conf.commitBegin| + 2] == conf.commitBegin + "..";
        r
    else defaultRange
  }

  /** `get_log_range`: the commit range, limited by `--since="<start date>"` when one is configured. */
  function LogRange(conf: Configuration, defaultRange: string, endOnly: bool): (r: string)
    ensures conf.startDate == [] ==> r == CommitRange(conf, defaultRange, endOnly)
    ensures conf.startDate != [] ==>
      && StartsWith(r, "--since=\"" + conf.startDate + "\" ")
      && r[|conf.startDate| + 11..] == "\"" + CommitRange(conf, defaultRange, endOnly) + "\""
  {
    var range := CommitRange(conf, defaultRange, endOnly);
    if conf.startDate != [] then
      var prefix := "--since=\"" + conf.startDate + "\" ";
      var r := prefix + "\"" + range + "\"";
      assert |prefix| == |conf.startDate| + 11;
      assert r[..|prefix|] == prefix;
      assert r[|prefix|..] == "\"" + range + "\"";
      r
    else range
  }

  /** Without an end commit, the collector always works on the default range (HEAD). */
  lemma RangeWithoutEnd(conf: Configuration, defaultRange: string, endOnly: bool)
    requires conf.commitEnd == [] && conf.startDate == []
    ensures LogRange(conf, defaultRange, endOnly) == defaultRange
  {
  }

  /** The begin commit only matters when the caller asks for the whole range. */
  lemma EndOnlyIgnoresBegin(conf: Configuration, begin: string, defaultRange: string)
    ensures CommitRange(conf, defaultRange, true)
         == CommitRange(conf.(commitBegin := begin), defaultRange, true)
  {
  }
}
