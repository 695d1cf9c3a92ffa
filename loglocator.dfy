/** Recovering an instance's log file from its `ps` line: the pattern
    `log-file=(.+)\.log`, applied as JavaScript's `match` applies it, and the
    open and follow operations built on it. */
module LogLocator {
  import opened Host
  import opened Text

  const Marker := "log-file="
  const Suffix := ".log"

  /** A match of the pattern starts at `i` and its capture ends at `j`: the marker at `i`,
      at least one character that is not a line terminator up to `j`, and `.log` at `j`. */
  ghost predicate LogMatch(s: string, i: int, j: int) {
    0 <= i && i + |Marker| < j && SuffixAt(s, j)
    && s[i..i + |Marker|] == Marker
    && forall m :: i + |Marker| <= m < j ==> !IsLineTerminator(s[m])
  }

  /** `.log` stands at `j`. */
  predicate SuffixAt(s: string, j: int) {
    0 <= j && j + |Suffix| <= |s| && s[j..j + |Suffix|] == Suffix
  }

  /** The first line terminator at or after `from`, or the end of the text. */
  function LineEnd(s: string, from: nat): (e: nat)
    requires from <= |s|
    ensures from <= e <= |s|
    ensures forall m :: from <= m < e ==> !IsLineTerminator(s[m])
    ensures e == |s| || IsLineTerminator(s[e])
    decreases |s| - from
  {
    if from == |s| || IsLineTerminator(s[from]) then from else LineEnd(s, from + 1)
  }

  /** The last `j` with `lo <= j` and `.log` at `[j, j + 4)` inside `[.., hi)`. */
  function LastSuffix(s: string, lo: nat, hi: nat): (r: Option<nat>)
    requires hi <= |s|
    ensures r.Some? ==> lo <= r.value && r.value + |Suffix| <= hi && SuffixAt(s, r.value)
    ensures r.Some? ==> forall j :: r.value < j && j + |Suffix| <= hi ==> !SuffixAt(s, j)
    ensures r.None? ==> forall j :: lo <= j && j + |Suffix| <= hi ==> !SuffixAt(s, j)
    decreases hi
  {
    if hi < lo + |Suffix| then None
    else if SuffixAt(s, hi - |Suffix|) then Some(hi - |Suffix|)
    else LastSuffix(s, lo, hi - 1)
  }

  /** The pattern tried at one start position: the capture is as long as the line allows. */
  function MatchAt(s: string, i: nat): (r: Option<nat>)
    requires i <= |s|
    ensures r.Some? ==> LogMatch(s, i, r.value)
    ensures r.Some? ==> forall j :: LogMatch(s, i, j) ==> j <= r.value
    ensures r.None? ==> forall j :: !LogMatch(s, i, j)
  {
    if i + |Marker| > |s| || s[i..i + |Marker|] != Marker then None
    else
      var c := i + |Marker|;
      var end := LineEnd(s, c);
      var r := LastSuffix(s, c + 1, end);
      assert forall j :: LogMatch(s, i, j) ==> c + 1 <= j && j + |Suffix| <= end by {
        forall j | LogMatch(s, i, j) ensures j + |Suffix| <= end {
          MatchWithinLine(s, i, j);
        }
      }
      r
  }

  /** A match, its `.log` included, lies on the line where its marker stands. */
  lemma MatchWithinLine(s: string, i: nat, j: int)
    requires LogMatch(s, i, j)
    ensures j + |Suffix| <= LineEnd(s, i + |Marker|)
  {
    assert forall m :: j <= m < j + |Suffix| ==> s[m] == Suffix[m - j];
  }

  /** The leftmost start at or after `i` where the pattern matches, with its capture end. */
  function FindFrom(s: string, i: nat): (r: Option<(nat, nat)>)
    requires i <= |s|
    ensures r.Some? ==> i <= r.value.0 && LogMatch(s, r.value.0, r.value.1)
    ensures r.Some? ==> forall j :: LogMatch(s, r.value.0, j) ==> j <= r.value.1
    ensures r.Some? ==> forall p, j :: i <= p < r.value.0 ==> !LogMatch(s, p, j)
    ensures r.None? ==> forall p, j :: i <= p ==> !LogMatch(s, p, j)
    decreases |s| - i
  {
    match MatchAt(s, i)
    case Some(j) => Some((i, j))
    case None =>
      if i == |s| then
        assert forall p, j :: i <= p ==> !LogMatch(s, p, j);
        None
      else FindFrom(s, i + 1)
  }

  /** `stdout.match(/log-file=(.+)\.log/)` followed by `m[1] + '.log'`. */
  function LogFilePath(stdout: string): (path: Option<string>)
    ensures path.Some? ==> EndsWith(path.value, Suffix)
    ensures path.Some? ==> forall m :: 0 <= m < |path.value| ==> !IsLineTerminator(path.value[m])
    ensures path.None? <==> forall i, j :: !LogMatch(stdout, i, j)
  {
    match FindFrom(stdout, 0)
    case None => None
    case Some((i, j)) =>
      var p := stdout[i + |Marker|..j] + Suffix;
      assert p[|p| - |Suffix|..] == Suffix;
      assert forall m :: 0 <= m < |p| - |Suffix| ==> p[m] == stdout[i + |Marker| + m];
      Some(p)
  }

  /** The path is the capture of the leftmost match, taken up to the last `.log` of its line. */
  lemma LogFilePathIsLeftmostLongest(stdout: string)
    ensures LogFilePath(stdout).Some? ==>
      exists i, j :: LogMatch(stdout, i, j)
        && LogFilePath(stdout).value == stdout[i + |Marker|..j] + Suffix
        && (forall p, q :: p < i ==> !LogMatch(stdout, p, q))
        && (forall q :: LogMatch(stdout, i, q) ==> q <= j)
  {
    var r := FindFrom(stdout, 0);
    if r.Some? {
      var (i, j) := r.value;
      assert forall p, q :: p < i ==> !LogMatch(stdout, p, q);
    }
  }

  /** An argument list that names a log file yields a path. */
  lemma MarkedPathFound(pre: string, path: string, post: string)
    requires |path| > 0 && forall m :: 0 <= m < |path| ==> !IsLineTerminator(path[m])
    ensures LogFilePath(pre + Marker + path + Suffix + post).Some?
  {
    var s := pre + Marker + path + Suffix + post;
    var i, j := |pre|, |pre| + |Marker| + |path|;
    assert s[i..i + |Marker|] == Marker;
    assert s[j..j + |Suffix|] == Suffix;
    assert forall m :: i + |Marker| <= m < j ==> s[m] == path[m - i - |Marker|];
    assert LogMatch(s, i, j);
  }

  /** The error outcome both log operations share. */
  const OpenFailed: seq<Effect> := [ShowError("open log file failed!"), Refresh]

  /** `openInstanceLog`: opens the file named in the `ps` output, or reports and refreshes. */
  function OpenInstanceLog(ps: Option<ExecResult>): (effects: seq<Effect>)
    ensures ps.None? || LogFilePath(ps.value.stdout).None? ==> effects == OpenFailed
    ensures ps.Some? && LogFilePath(ps.value.stdout).Some? ==> effects == [OpenFile(LogFilePath(ps.value.stdout).value)]
    ensures |effects| >= 1
    ensures effects[0].OpenFile? ==> EndsWith(effects[0].path, Suffix)
  {
    if ps.None? then OpenFailed
    else
      match LogFilePath(ps.value.stdout)
      case Some(path) => [OpenFile(path)]
      case None => OpenFailed
  }

  /** `followInstanceLog`: runs `tail -f` on that file in a terminal named after the pid,
      or reports and refreshes. */
  function FollowInstanceLog(pid: string, ps: Option<ExecResult>): (effects: seq<Effect>)
    ensures ps.None? || LogFilePath(ps.value.stdout).None? ==> effects == OpenFailed
    ensures ps.Some? && LogFilePath(ps.value.stdout).Some? ==>
      effects == [RunInNewTerminal("tail -f " + LogFilePath(ps.value.stdout).value, "log-" + pid)]
    ensures |effects| >= 1
    ensures effects[0].RunInNewTerminal? ==>
      StartsWith(effects[0].command, "tail -f ") && EndsWith(effects[0].command, Suffix)
      && effects[0].terminalName == "log-" + pid
  {
    if ps.None? then OpenFailed
    else
      match LogFilePath(ps.value.stdout)
      case Some(path) =>
        assert ("tail -f " + path)[|"tail -f " + path| - |Suffix|..] == path[|path| - |Suffix|..];
        [RunInNewTerminal("tail -f " + path, "log-" + pid)]
      case None => OpenFailed
  }

  /** The same two operations decide alike: both succeed exactly when the output names a log file. */
  lemma OpenAndFollowAgree(pid: string, ps: Option<ExecResult>)
    ensures OpenInstanceLog(ps)[0].OpenFile? <==> FollowInstanceLog(pid, ps)[0].RunInNewTerminal?
    ensures OpenInstanceLog(ps)[0].OpenFile? <==> ps.Some? && exists i, j :: LogMatch(ps.value.stdout, i, j)
  {
  }

  /** `viewInstanceLogs`: one independent open per pid, given each pid's `ps` output. */
  function ViewInstanceLogs(pids: seq<string>, ps: string -> Option<ExecResult>): (outcomes: seq<seq<Effect>>)
    ensures |outcomes| == |pids|
    ensures forall i :: 0 <= i < |pids| ==> outcomes[i] == OpenInstanceLog(ps(pids[i]))
  {
    if |pids| == 0 then [] else [OpenInstanceLog(ps(pids[0]))] + ViewInstanceLogs(pids[1..], ps)
  }

  /** `followInstanceLogs`: one independent follow per pid. */
  function FollowInstanceLogs(pids: seq<string>, ps: string -> Option<ExecResult>): (outcomes: seq<seq<Effect>>)
    ensures |outcomes| == |pids|
    ensures forall i :: 0 <= i < |pids| ==> outcomes[i] == FollowInstanceLog(pids[i], ps(pids[i]))
  {
    if |pids| == 0 then [] else [FollowInstanceLog(pids[0], ps(pids[0]))] + FollowInstanceLogs(pids[1..], ps)
  }
}
