/** Values exchanged with the host: results of shell commands, workspace folders,
    debugger configurations, and the events the playground commands emit. */
module Host {

  datatype Option<+T> = None | Some(value: T)

  datatype Result<+T, +E> = Ok(value: T) | Err(error: E)

  /** What a completed `shell.exec` call yields: the exit code and the captured standard output.
      A call that yields nothing at all is `None` of `Option<ExecResult>`. */
  datatype ExecResult = ExecResult(code: int, stdout: string)

  /** A workspace folder as the editor reports it: its name and the file-system path of its root. */
  datatype WorkspaceFolder = WorkspaceFolder(name: string, root: string)

  /** The value `Number(pid)` gives for a pid string: the decimal value of a
      non-empty digit string, otherwise the text left unconverted. */
  datatype ProcessId = Decimal(n: nat) | Unconverted(text: string)

  /** The two shapes of debugger configuration: the Go debugger attaching by
      `processId` in local mode, and LLDB attaching by `pid`. */
  datatype DebugConfiguration =
    | GoAttach(name: string, processId: ProcessId)
    | LldbAttach(name: string, pid: ProcessId)
  {
    function Type(): string {
      if GoAttach? then "go" else "lldb"
    }

    function Request(): string {
      "attach"
    }
  }

  /** Events sent to the editor or the shell. */
  datatype Effect =
    | Refresh                                          // the playground tree refresh command
    | ShowInfo(message: string)
    | ShowError(message: string)
    | Exec(command: string)                            // a shell command whose result is consumed
    | InvokeInSharedTerminal(arguments: string)        // `tiup <arguments>` in the shared terminal
    | SendToNewTerminal(title: string, text: string)   // a new terminal that receives one command line
    | RunInNewTerminal(command: string, terminalName: string)
    | OpenFile(path: string)
    | StartDebugging(folder: WorkspaceFolder, config: DebugConfiguration)
    | PollUntilRunning                                 // starts the poll for a running playground
    | PollUntilStopped                                 // starts the poll for a stopped playground
}
