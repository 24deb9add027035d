/**
 * Version information (include/khepri/version_info.hpp, src/version_info.cpp):
 * the version of a component and the commit it was built from, and its
 * human-readable form "major.minor.patch (commit <id>[-dirty])".
 */
module VersionInfos {
  /** `VersionInfo`: the version numbers, their text, whether the workspace was clean, and the commit. */
  datatype VersionInfo = VersionInfo(
    majorVersion: int, minorVersion: int, patchVersion: int,
    versionString: string, isVersionClean: bool, buildCommit: string)

  const COMMIT_PREFIX := " (commit "
  const DIRTY_SUFFIX := "-dirty"

  /** The commit id as shown: the commit, marked "-dirty" when built from local changes. */
  function CommitId(info: VersionInfo): (r: string)
    ensures |r| == |info.buildCommit| + (if info.isVersionClean then 0 else |DIRTY_SUFFIX|)
    ensures r[..|info.buildCommit|] == info.buildCommit
    ensures !info.isVersionClean ==> r[|info.buildCommit|..] == DIRTY_SUFFIX
  {
    var commitId := info.buildCommit;
    if info.isVersionClean then commitId else commitId + DIRTY_SUFFIX
  }

  /**
   * `to_string`: the version text, then the commit id in parentheses. It
   * starts with the version text, holds the commit right after " (commit ",
   * ends in ')' and so is never empty.
   */
  function ToString(info: VersionInfo): (r: string)
    ensures |r| == |info.versionString| + |COMMIT_PREFIX| + |CommitId(info)| + 1
    ensures r[..|info.versionString|] == info.versionString
    ensures r[|info.versionString|..|info.versionString| + |COMMIT_PREFIX|] == COMMIT_PREFIX
    ensures r[|info.versionString| + |COMMIT_PREFIX|..|info.versionString| + |COMMIT_PREFIX| + |info.buildCommit|] == info.buildCommit
    ensures r[|r| - 1] == ')' && |r| > 0
  {
    info.versionString + COMMIT_PREFIX + CommitId(info) + ")"
  }

  // ----- properties

  /** A dirty build's text is the clean build's text with "-dirty" before the closing parenthesis. */
  lemma {:induction false} DirtyOnlyAddsSuffix(info: VersionInfo)
    ensures var clean := ToString(info.(isVersionClean := true));
      ToString(info.(isVersionClean := false)) == clean[..|clean| - 1] + DIRTY_SUFFIX + ")"
  {
    var clean := ToString(info.(isVersionClean := true));
    assert clean[..|clean| - 1] == info.versionString + COMMIT_PREFIX + info.buildCommit;
  }

  /** The text determines the version text and the commit id, given the length of the version text. */
  lemma {:induction false} ToStringDeterminesParts(a: VersionInfo, b: VersionInfo)
    requires |a.versionString| == |b.versionString| && ToString(a) == ToString(b)
    ensures a.versionString == b.versionString && CommitId(a) == CommitId(b)
  {
    var n := |a.versionString| + |COMMIT_PREFIX|;
    assert ToString(a)[n..|ToString(a)| - 1] == CommitId(a);
    assert ToString(b)[n..|ToString(b)| - 1] == CommitId(b);
  }

  /** The text of version 1.2.3 built cleanly from commit "abc". */
  lemma {:induction false} ToStringExample()
    ensures ToString(VersionInfo(1, 2, 3, "1.2.3", true, "abc")) == "1.2.3 (commit abc)"
    ensures ToString(VersionInfo(1, 2, 3, "1.2.3", false, "abc")) == "1.2.3 (commit abc-dirty)"
  {
  }
}
