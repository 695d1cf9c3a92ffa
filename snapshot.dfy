/** Process inspection: whether the playground process is running, the pid to
    stop, and the instance map parsed from `tiup playground display`. */
module Snapshot {
  import opened Host
  import opened Text

  /** `checkPlaygroundRun`: the listing command succeeded and its trimmed output is one line. */
  function IsRunning(listing: Option<ExecResult>): bool {
    listing.Some? && listing.value.code == 0 && |Split(Trim(listing.value.stdout), '\n')| == 1
  }

  /** Running means: exit code 0 and no line break left once the output is trimmed. */
  lemma RunningIffSingleLine(listing: Option<ExecResult>)
    ensures IsRunning(listing) <==>
      listing.Some? && listing.value.code == 0 && '\n' !in Trim(listing.value.stdout)
  {
    if listing.Some? {
      SplitSingle(Trim(listing.value.stdout), '\n');
    }
  }

  /** The pid `stopPlayground` kills: the first white-space separated field of the
      one line of the listing, present exactly when the running test passes. */
  function KillTarget(listing: Option<ExecResult>): (pid: Option<string>)
    ensures pid.Some? <==> IsRunning(listing)
    ensures pid.Some? ==>
      var line := Trim(listing.value.stdout);
      StartsWith(line, pid.value) && '\n' !in line
      && (forall i :: 0 <= i < |pid.value| ==> !IsSpace(pid.value[i]))
      && (|pid.value| == |line| || IsSpace(line[|pid.value|]))
  {
    if IsRunning(listing) then
      var lines := Split(Trim(listing.value.stdout), '\n');
      SplitSingle(Trim(listing.value.stdout), '\n');
      Some(FirstField(lines[0]))
    else None
  }

  // ---------------------------------------------------------------------------
  // The line pattern (\d+)\s+(\w+), unanchored, as JavaScript's `match` applies it.

  /** Where a match of the line pattern lies: the pid is `[start, digitsEnd)`, the
      white space `[digitsEnd, compStart)`, the component `[compStart, compEnd)`. */
  datatype LineMatch = LineMatch(start: nat, digitsEnd: nat, compStart: nat, compEnd: nat)

  /** Some match of the pattern occupies exactly `[i, e)` with these group boundaries. */
  ghost predicate MatchAt(line: string, i: int, j: int, k: int, e: int) {
    0 <= i < j < k < e <= |line|
    && (forall m :: i <= m < j ==> IsDigit(line[m]))
    && (forall m :: j <= m < k ==> IsSpace(line[m]))
    && (forall m :: k <= m < e ==> IsWordChar(line[m]))
  }

  /** The pattern tried at one start position, each quantifier taking its longest run. */
  function AttemptAt(line: string, i: nat): (r: Option<LineMatch>)
    requires i <= |line|
    ensures r.Some? ==> r.value.start == i
    ensures r.Some? ==> MatchAt(line, i, r.value.digitsEnd, r.value.compStart, r.value.compEnd)
    ensures r.Some? ==> r.value.compEnd == |line| || !IsWordChar(line[r.value.compEnd])
  {
    var j := RunEnd(line, i, IsDigit);
    if j == i then None
    else
      var k := RunEnd(line, j, IsSpace);
      if k == j then None
      else
        var e := RunEnd(line, k, IsWordChar);
        if e == k then None
        else Some(LineMatch(i, j, k, e))
  }

  /** Backtracking cannot rescue a start position: if any match starts at `i`,
      the greedy attempt at `i` succeeds. */
  lemma AttemptComplete(line: string, i: nat, j: int, k: int, e: int)
    requires MatchAt(line, i, j, k, e)
    ensures AttemptAt(line, i).Some?
  {
    RunEndExact(line, i, IsDigit, j);
    RunEndExact(line, j, IsSpace, k);
    assert RunEnd(line, k, IsWordChar) > k;
  }

  /** The first start position at or after `i` where the pattern matches. */
  function FindFrom(line: string, i: nat): (r: Option<LineMatch>)
    requires i <= |line|
    ensures r.Some? ==> i <= r.value.start < |line| && AttemptAt(line, r.value.start) == r
    ensures r.Some? ==> forall p :: i <= p < r.value.start ==> AttemptAt(line, p).None?
    ensures r.None? ==> forall p :: i <= p <= |line| ==> AttemptAt(line, p).None?
    decreases |line| - i
  {
    if i == |line| then None
    else
      match AttemptAt(line, i)
      case Some(m) => Some(m)
      case None => FindFrom(line, i + 1)
  }

  /** `line.match(/(\d+)\s+(\w+)/)`: the leftmost match, each group as long as possible. */
  function FirstMatch(line: string): (r: Option<LineMatch>)
    ensures r.Some? ==> MatchAt(line, r.value.start, r.value.digitsEnd, r.value.compStart, r.value.compEnd)
    ensures r.Some? ==> r.value.compEnd == |line| || !IsWordChar(line[r.value.compEnd])
    ensures r.Some? ==> forall i, j, k, e :: i < r.value.start ==> !MatchAt(line, i, j, k, e)
    ensures r.None? ==> forall i, j, k, e :: !MatchAt(line, i, j, k, e)
  {
    var r := FindFrom(line, 0);
    if r.Some? then
      assert forall i, j, k, e :: i < r.value.start ==> !MatchAt(line, i, j, k, e) by {
        forall i, j, k, e | i < r.value.start && MatchAt(line, i, j, k, e)
          ensures false
        {
          AttemptComplete(line, i, j, k, e);
        }
      }
      r
    else
      assert forall i, j, k, e :: !MatchAt(line, i, j, k, e) by {
        forall i, j, k, e | MatchAt(line, i, j, k, e)
          ensures false
        {
          AttemptComplete(line, i, j, k, e);
        }
      }
      r
  }

  // ---------------------------------------------------------------------------
  // The instance map.

  /** Component name to its pids, in the order their lines appear. */
  type Instances = map<string, seq<string>>

  /** The pid and component a line contributes, if it matches. */
  function LineEntry(line: string): Option<(string, string)> {
    match FirstMatch(line)
    case None => None
    case Some(m) => Some((line[m.start..m.digitsEnd], line[m.compStart..m.compEnd]))
  }

  /** One step of the scan: a matching line appends its pid to its component's list. */
  function Record(instances: Instances, line: string): Instances {
    match LineEntry(line)
    case None => instances
    case Some((pid, comp)) =>
      instances[comp := (if comp in instances then instances[comp] else []) + [pid]]
  }

  /** The map built from the lines scanned in order. */
  function Collect(lines: seq<string>): Instances {
    if |lines| == 0 then map[] else Record(Collect(lines[..|lines| - 1]), lines[|lines| - 1])
  }

  /** The pid one line gives for one component: none, or the one it names. */
  function LinePids(line: string, comp: string): seq<string> {
    match LineEntry(line)
    case Some((pid, c)) => if c == comp then [pid] else []
    case None => []
  }

  /** The pids that the lines give for one component, in line order. */
  function PidsOf(lines: seq<string>, comp: string): seq<string> {
    if |lines| == 0 then [] else LinePids(lines[0], comp) + PidsOf(lines[1..], comp)
  }

  lemma {:induction false} PidsOfSnoc(lines: seq<string>, line: string, comp: string)
    ensures PidsOf(lines + [line], comp) == PidsOf(lines, comp) + LinePids(line, comp)
  {
    if |lines| > 0 {
      assert (lines + [line])[0] == lines[0];
      assert (lines + [line])[1..] == lines[1..] + [line];
      PidsOfSnoc(lines[1..], line, comp);
      var h := LinePids(lines[0], comp);
      assert h + (PidsOf(lines[1..], comp) + LinePids(line, comp)) == (h + PidsOf(lines[1..], comp)) + LinePids(line, comp);
    } else {
      assert lines + [line] == [line];
      assert PidsOf([line], comp) == LinePids(line, comp) + PidsOf([], comp);
    }
  }

  /** What one line adds to the map, stated per component. */
  lemma RecordAdds(instances: Instances, line: string, comp: string)
    ensures comp in Record(instances, line) <==> comp in instances || LinePids(line, comp) != []
    ensures comp in Record(instances, line) ==>
      Record(instances, line)[comp] == (if comp in instances then instances[comp] else []) + LinePids(line, comp)
  {
  }

  /** The scan keeps exactly the components some line names, each with the pids
      of its lines in input order; lines that do not match contribute nothing. */
  lemma {:induction false} CollectIsPidsOf(lines: seq<string>)
    ensures forall comp :: comp in Collect(lines) <==> PidsOf(lines, comp) != []
    ensures forall comp :: comp in Collect(lines) ==> Collect(lines)[comp] == PidsOf(lines, comp)
  {
    if |lines| > 0 {
      var init, last := lines[..|lines| - 1], lines[|lines| - 1];
      assert lines == init + [last];
      CollectIsPidsOf(init);
      forall comp
        ensures comp in Collect(lines) <==> PidsOf(lines, comp) != []
        ensures comp in Collect(lines) ==> Collect(lines)[comp] == PidsOf(lines, comp)
      {
        PidsOfSnoc(init, last, comp);
        RecordAdds(Collect(init), last, comp);
      }
    }
  }

  lemma CollectStep(lines: seq<string>, i: nat)
    requires i < |lines|
    ensures Collect(lines[..i + 1]) == Record(Collect(lines[..i]), lines[i])
  {
    assert lines[..i + 1][..i] == lines[..i];
  }

  /** The display query succeeded, so `displayPlayground` returns a map. */
  predicate Displays(res: Option<ExecResult>) {
    res.Some? && res.value.code == 0
  }

  /** `displayPlayground`: on success, scans the output line by line into the instance map. */
  method DisplayPlayground(res: Option<ExecResult>) returns (r: Option<Instances>)
    ensures r.Some? <==> Displays(res)
    ensures r.Some? ==> r.value == Collect(Split(res.value.stdout, '\n'))
  {
    if !Displays(res) {
      return None;
    }
    var lines := Split(res.value.stdout, '\n');
    var instances: Instances := map[];
    var i := 0;
    while i < |lines|
      invariant 0 <= i <= |lines|
      invariant instances == Collect(lines[..i])
    {
      CollectStep(lines, i);
      ghost var before := instances;
      var entry := LineEntry(lines[i]);
      if entry.Some? {
        var (pid, comp) := entry.value;
        instances := instances[comp := (if comp in instances then instances[comp] else []) + [pid]];
      }
      assert instances == Record(before, lines[i]);
      i := i + 1;
    }
    assert lines[..i] == lines;
    return Some(instances);
  }
}
