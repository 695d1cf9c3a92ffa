/** Starting and stopping the playground, as the events each command emits given
    what the process listings and the configuration document say. */
module Lifecycle {
  import opened Host
  import opened Snapshot
  import opened Translator

  /** A configuration file as the start command reads it: the directory it lives in
      and its keys in document order. */
  datatype ConfigFile = ConfigFile(dir: string, doc: seq<Entry>)

  const TerminalTitle := "tiup playground"

  /** Whether some event launches the playground. */
  predicate Launches(effects: seq<Effect>) {
    exists i :: 0 <= i < |effects| && (effects[i].SendToNewTerminal? || effects[i].InvokeInSharedTerminal?)
  }

  /** `startPlayground`: reports a running playground; otherwise launches the default
      playground or the command built from the configuration, then polls for it. A
      configuration whose translation throws launches nothing. */
  function StartPlayground(listing: Option<ExecResult>, config: Option<ConfigFile>, folders: seq<WorkspaceFolder>): (effects: seq<Effect>)
    ensures IsRunning(listing) ==> effects == [ShowInfo("TiUP Playground is running"), Refresh]
    ensures !IsRunning(listing) && config.None? ==> effects == [InvokeInSharedTerminal("playground"), PollUntilRunning]
    ensures !IsRunning(listing) && config.Some? && Translate(config.value.doc, config.value.dir, folders).Err? ==> effects == []
    ensures Launches(effects) <==>
      !IsRunning(listing) && (config.None? || Translate(config.value.doc, config.value.dir, folders).Ok?)
    ensures Launches(effects) ==> |effects| == 2 && effects[1] == PollUntilRunning
    ensures !IsRunning(listing) && config.Some? && Launches(effects) ==>
      effects[0] == SendToNewTerminal(TerminalTitle,
        LaunchCommand(VersionOf(config.value.doc), Translate(config.value.doc, config.value.dir, folders).value))
  {
    if IsRunning(listing) then [ShowInfo("TiUP Playground is running"), Refresh]
    else if config.None? then
      var effects := [InvokeInSharedTerminal("playground"), PollUntilRunning];
      assert effects[0].InvokeInSharedTerminal?;
      effects
    else
      match Translate(config.value.doc, config.value.dir, folders)
      case Err(_) => []
      case Ok(plan) =>
        var effects := [SendToNewTerminal(TerminalTitle, LaunchCommand(VersionOf(config.value.doc), plan)), PollUntilRunning];
        assert effects[0].SendToNewTerminal?;
        effects
  }

  /** `kill <pid>` */
  function KillCommand(pid: string): string {
    "kill " + pid
  }

  /** Whether some event runs a shell command (the only one `stopPlayground` runs is the kill). */
  predicate RunsCommand(effects: seq<Effect>) {
    exists i :: 0 <= i < |effects| && effects[i].Exec?
  }

  const StopFailed: seq<Effect> := [ShowError("stop playground failed!"), Refresh]

  /** The effects of `stopPlayground` once the pid to kill is known (or known to be
      missing): the kill, then either the stopped poll or the error and a refresh. */
  function StopEffects(target: Option<string>, killResult: Option<ExecResult>): (effects: seq<Effect>)
    ensures RunsCommand(effects) <==> target.Some?
    ensures target.Some? ==> effects[0] == Exec(KillCommand(target.value))
    ensures PollUntilStopped in effects <==> target.Some? && killResult.Some? && killResult.value.code == 0
    ensures PollUntilStopped in effects ==>
      effects == [Exec(KillCommand(target.value)), ShowInfo("stopping playground..."), PollUntilStopped]
    ensures PollUntilStopped !in effects ==>
      effects == (if target.Some? then [Exec(KillCommand(target.value))] else []) + StopFailed
  {
    if target.None? then
      assert !StopFailed[0].Exec? && !StopFailed[1].Exec?;
      StopFailed
    else if killResult.Some? && killResult.value.code == 0 then
      var effects := [Exec(KillCommand(target.value)), ShowInfo("stopping playground..."), PollUntilStopped];
      assert effects[0].Exec?;
      effects
    else
      var effects := [Exec(KillCommand(target.value))] + StopFailed;
      assert effects[0].Exec? && effects == [Exec(KillCommand(target.value)), ShowError("stop playground failed!"), Refresh];
      effects
  }

  /** `stopPlayground`: kills the pid of the one listed playground process and polls for
      its end; a listing that is not exactly one line, or a failing kill, is reported
      and refreshed. The kill's own result is consulted only when a kill was issued. */
  function StopPlayground(listing: Option<ExecResult>, killResult: Option<ExecResult>): (effects: seq<Effect>)
    ensures RunsCommand(effects) <==> IsRunning(listing)
    ensures IsRunning(listing) ==> effects[0] == Exec(KillCommand(KillTarget(listing).value))
    ensures PollUntilStopped in effects <==> IsRunning(listing) && killResult.Some? && killResult.value.code == 0
    ensures PollUntilStopped !in effects ==> |effects| >= 2 && effects[|effects| - 2..] == StopFailed
    ensures PollUntilStopped in effects ==>
      effects == [Exec(KillCommand(KillTarget(listing).value)), ShowInfo("stopping playground..."), PollUntilStopped]
    ensures PollUntilStopped !in effects ==>
      effects == (if IsRunning(listing) then [Exec(KillCommand(KillTarget(listing).value))] else []) + StopFailed
  {
    var target := KillTarget(listing);
    assert target.Some? <==> IsRunning(listing);
    var effects := StopEffects(target, killResult);
    assert PollUntilStopped !in effects ==> effects[|effects| - 2..] == StopFailed;
    effects
  }
}
