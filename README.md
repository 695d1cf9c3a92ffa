# TiUP playground commands, modelled in Dafny

This project models the playground commands of the TiUP VS Code extension
(`src/playground/command.ts`). The extension drives a local TiDB cluster, the
*playground*, from the editor. The commands modelled here are:

- the running check;
- the parser of `tiup playground display`, which builds a map from each
  component to its pids;
- the start command, which translates a TOML configuration document into a
  `tiup playground` command line, local build steps included;
- the stop command and its kill;
- the three bounded polls that wait for the playground to come up or go down;
- the log-file lookup behind "open log" and "follow log";
- the debugger dispatcher, which attaches Go or LLDB to tidb, pd and tikv.

What the extension does to the editor becomes data. Each command's calls into
the host (information and error messages, the refresh command, terminals,
opening a file, starting a debug session, starting a poll) are returned as a
sequence of `Host.Effect` events, in the order the commands make them. What the
extension reads from the system is passed in as parameters: the
`Option<ExecResult>` of each shell command (`None` stands for an `undefined`
result), the workspace folders and the parsed configuration document.

The modules are:

- `Host`: the shared datatypes (results, workspace folders, debug configurations
  and effects).
- `Text`: JavaScript's string operations as the commands use them: `trim`,
  `split` on one character, `join`, `split(/\s+/)[0]`, and the `\s`, `\d`, `\w`
  character classes.
- `Snapshot`: the running check, the pid to kill and the display parser. The
  parser is a loop proved against a scan function, and that function is proved
  equal to a per-component reference.
- `Translator`: the configuration-to-command translation. It is a loop over the
  document's keys with an inner loop over the workspace folders. Both loops
  are proved against a fold, and the fold's properties are proved separately.
- `Poller`: the bounded poll. The counter each poll keeps in its `check`
  closure becomes the class `PollState`. The timer-driven variant is a loop and
  the awaited variant is a recursion, and both are proved equal to one
  specification `Outcome`, whose properties are proved as lemmas.
- `LogLocator`: the pattern `log-file=(.+)\.log`, applied as JavaScript's
  `match` applies it. The match is the leftmost one, and its capture is as long
  as the line allows. This is proved against a declarative match predicate.
- `Debugger`: `debugInstance`, `debugInstances`, `debugCluster` and `Number(pid)`.
- `Lifecycle`: the effects of `startPlayground` and `stopPlayground`.

## Model

| member | source | states |
|---|---|---|
| Text.Split | src/playground/command.ts:13 | `split` on one character yields at least one piece and no piece holds the separator |
| Text.JoinSplit | src/playground/command.ts:23 | joining the pieces of a split with the separator gives back the text: the lines cover the whole output |
| Text.SplitSingle | src/playground/command.ts:13-14 | the split has exactly one piece iff the separator does not occur, and that piece is then the whole text |
| Text.TrimStart | src/playground/command.ts:13 | removes exactly the leading white space: a suffix of the input, all of the removed part is white space, and the result does not start with white space |
| Text.TrimEnd | src/playground/command.ts:13 | the same for trailing white space |
| Text.FirstField | src/playground/command.ts:281 | `split(/\s+/)[0]` is the longest prefix without white space |
| Snapshot.RunningIffSingleLine | src/playground/command.ts:11-15 | the playground counts as running iff the listing exists, exits with 0 and its trimmed output has no line break |
| Snapshot.KillTarget | src/playground/command.ts:278-281 | a pid is chosen exactly when the running test passes; it is the first field of the single trimmed line: a prefix of it, free of white space and followed by white space or the end |
| Snapshot.FirstMatch | src/playground/command.ts:25 | the line pattern `(\d+)\s+(\w+)` matches at the leftmost possible position, its word group is maximal, and there is no result iff no position matches |
| Snapshot.CollectIsPidsOf | src/playground/command.ts:23-31 | the instance map holds exactly the components some line names, each mapped to the pids of its lines in input order |
| Snapshot.DisplayPlayground | src/playground/command.ts:17-35 | a map is returned iff the display command exits with 0, and it is the scan of the output's lines |
| Translator.BuildablePrefixes | src/playground/command.ts:73-82 | exactly the prefixes db, kv, pd, tidb and tikv name a buildable component; db and tidb map to tidb, kv and tikv map to tikv |
| Translator.TranslateDocument | src/playground/command.ts:60-107 | the key loop computes the translation of the document: the argument and build-command lists on success, the first throwing key otherwise |
| Translator.AddKey | src/playground/command.ts:63-105 | one key appends exactly what its rule emits to the lists, or fails when its rule throws |
| Translator.AddLocalBuild | src/playground/command.ts:83-102 | the folder loop appends the local build of the key to the lists |
| Translator.StopsAtError | src/playground/command.ts:66-69 | once a key throws, the keys after it do not change the outcome |
| Translator.TranslateConcat | src/playground/command.ts:62 | translating two parts of a document one after the other is translating them in sequence, with the first error winning |
| Translator.SkippedKeyEmitsNothing | src/playground/command.ts:63 | the version key and empty-string values contribute nothing, wherever they stand |
| Translator.TranslateFails | src/playground/command.ts:66-68 | translation fails iff some key is a `.config` key with a value that is neither a boolean nor a string, and then it fails on the first such key |
| Translator.LocalBuildPerFolder | src/playground/command.ts:83-102 | `key = "current"` emits one build command and one argument per workspace folder named after the component, in folder order, each naming that folder's root |
| Translator.NoCheckoutNoBuild | src/playground/command.ts:83-84 | with no folder named after the component, or a component that cannot be built, nothing is emitted |
| Translator.ArgumentsNameTheirKey | src/playground/command.ts:64-105 | every argument a key emits starts with `--` and the key |
| Translator.VersionOf | src/playground/command.ts:108 | without a `tidb.version` key the version is empty; otherwise the first such key decides: a string value is the version itself, `true` gives `"true"` and `false` gives the empty version |
| Translator.LaunchCommandShape | src/playground/command.ts:109-114 | the launch line ends with the invocation followed by `&& exit`; without build steps it is exactly that; otherwise it starts with the first build step and runs `cd ~` right before the invocation |
| Lifecycle.StartPlayground | src/playground/command.ts:37-120 | a running playground is reported and refreshed; without a configuration, `playground` runs in the shared terminal and the running poll starts; a configuration whose translation throws emits nothing; otherwise the translated command goes to a new terminal and the running poll starts |
| Lifecycle.StopEffects | src/playground/command.ts:280-291 | with a pid, the kill comes first; a kill exiting with 0 gives exactly the kill, "stopping playground..." and the stopped poll; every other path is the kill (if any) followed by exactly the error message and a refresh |
| Lifecycle.StopPlayground | src/playground/command.ts:276-292 | a kill is issued iff the playground is running, and it kills the first field of the listing; the stopped poll starts iff the kill exits with 0, and then the effects are exactly the kill, "stopping playground..." and the poll; every other path is the kill (when running) followed by exactly the error message and a refresh |
| Poller.NeverSatisfied | src/playground/command.ts:132-147 | a check that never succeeds is made `times + 1` times and no refresh is sent |
| Poller.FirstSatisfied | src/playground/command.ts:134-139 | when check `k` is the first within the bound to succeed, the poll stops after `k + 1` checks with exactly one refresh |
| Poller.OutcomeBounds | src/playground/command.ts:140-143 | every poll makes between 1 and `times + 1` checks and sends at most one refresh, and it sends one iff some check within the bound succeeds |
| Poller.DefaultPollBounds | src/playground/command.ts:132 | with the default bounds the running poll makes 1 to 31 checks, the stopped polls 1 to 11, each with at most one refresh |
| Poller.PollState.Check | src/playground/command.ts:134-145 | a success sends the refresh and ends the poll; a failure increments the counter and ends the poll once the counter exceeds the bound |
| Poller.PollScheduled | src/playground/command.ts:132-147 | the timer-driven chain of checks has the poll's outcome |
| Poller.AwaitCheck | src/playground/command.ts:319-331 | each awaited check, followed while the poll goes on by the next, completes what remains of the poll |
| Poller.PollAwaited | src/playground/command.ts:314-333 | the awaited chain of checks has the same outcome |
| Poller.LoopCheckPlayground | src/playground/command.ts:132-147 | polls the display command until it yields an instance map, with the poll's outcome |
| Poller.LoopCheckPlaygroundStop | src/playground/command.ts:294-312 | polls the running check until the playground is no longer running |
| Poller.WaitPlaygroundStop | src/playground/command.ts:314-333 | the same poll, awaited |
| LogLocator.LogFilePath | src/playground/command.ts:156-158 | a path is found iff the pattern matches somewhere; the path ends with `.log` and holds no line terminator |
| LogLocator.LogFilePathIsLeftmostLongest | src/playground/command.ts:156-158 | the path is the capture of the leftmost match, extended to the last `.log` of its line, followed by `.log` |
| LogLocator.MarkedPathFound | src/playground/command.ts:156 | any output containing `log-file=<path>.log` with a non-empty single-line path yields a path |
| LogLocator.OpenInstanceLog | src/playground/command.ts:153-167 | opens exactly the file the `ps` output names (the extracted path, ending with `.log`); when there is no output or no match, shows the error and refreshes |
| LogLocator.FollowInstanceLog | src/playground/command.ts:173-185 | runs `tail -f <extracted path>` in a terminal named `log-<pid>`; when there is no output or no match, shows the error and refreshes |
| LogLocator.OpenAndFollowAgree | src/playground/command.ts:153-185 | opening and following succeed on the same outputs, namely those in which the pattern matches |
| LogLocator.ViewInstanceLogs | src/playground/command.ts:149-151 | one open per pid, in order |
| LogLocator.FollowInstanceLogs | src/playground/command.ts:169-171 | one follow per pid, in order |
| Debugger.ToNumberDecimalText | src/playground/command.ts:222 | converting the printed form of a pid gives back that pid |
| Debugger.FindFolder | src/playground/command.ts:206-208 | the first workspace folder with the given name, and none iff no folder has it |
| Debugger.DebugInstance | src/playground/command.ts:199-249 | a component outside pd, tikv and tidb is rejected as not supported; a supported component without a folder of its name is rejected with the "not included in workspace" message; a session starts iff the component is supported and a folder has its name; the session uses that folder and attaches the Go debugger ("Attach TiDB", "Attach PD") to tidb and pd and LLDB ("Attach TiKV") to tikv, with the converted pid |
| Debugger.DebugInstances | src/playground/command.ts:195-197 | one independent attempt per pid, in order |
| Debugger.DebugClusterForwards | src/playground/command.ts:187-193 | the cluster command attempts exactly the items whose component is supported, in their order |

## Left out

- Host calls (messages, commands, terminals, `vscode.open`, debug sessions) are returned as events. Their own behaviour, and the `await`s between them, are not part of this model.
- Shell commands are not run. Their results are inputs, and each poll check's outcome is given by the number of that check.
- The time between checks (`setTimeout`, the 3-second interval) is left out. So is the fact that the timer-driven polls run concurrently with other commands. The default bounds 30 and 10 are the constants `Poller.RunningPollTimes` and `Poller.StoppedPollTimes`. The poll methods take the bound as a parameter.
- Reading the configuration file and parsing TOML are left out. The document is taken as already parsed: a list of top-level keys in `Object.keys` order, each with a boolean, a string or another value. JavaScript's rule that integer-like keys come first in `Object.keys` is left out too.
- `path.dirname` is given as the configuration's directory. `path.join` is a plain concatenation with one `/`, with no normalisation of `..` or of duplicate separators.
- Translator.VersionOf: a falsy version that is neither a boolean nor a string (the number 0, say) is taken as its text rather than as the empty string.
- Translator.TranslateDocument: a `.config` value that is neither a boolean nor a string throws in `startPlayground`. In the model this is the error result `ConfigValueNotString`, and the model does not show how the exception propagates.
- `Number(pid)` is modelled for non-empty digit strings. Any other text is kept unconverted, and the model does not produce `NaN` or numbers with signs, fractions or exponents.
- The instance map is a plain map. Component names that collide with `Object.prototype` members (`constructor`, `__proto__`) are not treated specially.
- Strings are sequences of code points, not UTF-16 code units.
- The tree item type of the playground view (`src/playground/provider.ts`) is not part of this model. An item is taken as its component and one pid text, which `debugCluster` passes on as `debugInstance`'s pid. If the item's `extra.pids` holds several pids (a list), `Number` of it is `NaN`, or the pid itself when the list has exactly one pid. The model does not capture that conversion: it takes the value as text.
- `reloadPlayground`, `connectMySQL` and the four TPC-C commands are left out. They only sequence other commands, or send a fixed command line to a terminal.
- `console.log` of the `ps` result is left out.
- The log pattern's capture runs to the last `.log` on the line, as greedy `(.+)` does in the code. Where a shorter, first-`.log` reading of the pattern could be assumed, the model follows the code.
