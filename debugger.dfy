/** Attaching a debugger to a playground instance: which components can be debugged,
    the workspace folder the session runs in, and the configuration for each runtime. */
module Debugger {
  import opened Host
  import opened Text

  /** The components `debugInstance` accepts, in the order of its list. */
  const Debuggable: seq<string> := ["pd", "tikv", "tidb"]

  /** The decimal value of a digit string. */
  function DigitsValue(s: string): nat
    requires forall i :: 0 <= i < |s| ==> IsDigit(s[i])
  {
    if |s| == 0 then 0
    else
      assert IsDigit(s[|s| - 1]);
      10 * DigitsValue(s[..|s| - 1]) + (s[|s| - 1] as int - '0' as int)
  }

  /** `Number(pid)` for the pids the commands pass along: a non-empty digit string
      becomes its decimal value, any other text is left unconverted. */
  function ToNumber(pid: string): ProcessId {
    if |pid| > 0 && forall i :: 0 <= i < |pid| ==> IsDigit(pid[i]) then Decimal(DigitsValue(pid))
    else Unconverted(pid)
  }

  /** The decimal text of a number, as the operating system prints a pid. */
  function DecimalText(n: nat): (s: string)
    ensures |s| > 0 && forall i :: 0 <= i < |s| ==> IsDigit(s[i])
  {
    var d := ['0' + ((n % 10) as char)];
    if n < 10 then d else DecimalText(n / 10) + d
  }

  /** Converting the printed form of a pid gives back that pid. */
  lemma {:induction false} ToNumberDecimalText(n: nat)
    ensures ToNumber(DecimalText(n)) == Decimal(n)
  {
    DigitsValueDecimalText(n);
  }

  lemma {:induction false} DigitsValueDecimalText(n: nat)
    ensures DigitsValue(DecimalText(n)) == n
  {
    var s := DecimalText(n);
    if n >= 10 {
      DigitsValueDecimalText(n / 10);
      assert s[..|s| - 1] == DecimalText(n / 10);
    }
  }

  /** `workspaceFolders.find(folder => folder.name === name)`. */
  function FindFolder(folders: seq<WorkspaceFolder>, name: string): (r: Option<WorkspaceFolder>)
    ensures r.Some? ==> r.value.name == name && r.value in folders
    ensures r.None? <==> forall i :: 0 <= i < |folders| ==> folders[i].name != name
    ensures r.Some? ==>
      exists i :: 0 <= i < |folders| && folders[i] == r.value && forall j :: 0 <= j < i ==> folders[j].name != name
  {
    if |folders| == 0 then None
    else if folders[0].name == name then Some(folders[0])
    else
      var r := FindFolder(folders[1..], name);
      assert forall i :: 1 <= i < |folders| ==> folders[i] == folders[1..][i - 1];
      if r.Some? then
        var i :| 0 <= i < |folders[1..]| && folders[1..][i] == r.value
          && forall j :: 0 <= j < i ==> folders[1..][j].name != name;
        assert folders[i + 1] == r.value;
        r
      else r
  }

  /** The result of `debugInstance`: a rejection with its message, or a debug session
      started in a workspace folder with a configuration. */
  datatype DebugOutcome = Rejected(message: string) | Attach(folder: WorkspaceFolder, config: DebugConfiguration)

  /** The configuration for one debuggable component. */
  function ConfigFor(component: string, pid: string): (config: DebugConfiguration)
    requires component in Debuggable
  {
    if component == "tidb" then GoAttach("Attach TiDB", ToNumber(pid))
    else if component == "pd" then GoAttach("Attach PD", ToNumber(pid))
    else LldbAttach("Attach TiKV", ToNumber(pid))
  }

  /** `debugInstance`: rejects a component outside the list or without a workspace folder
      of its name; otherwise attaches the Go debugger to tidb and pd, LLDB to tikv. */
  function DebugInstance(instanceName: string, pid: string, folders: seq<WorkspaceFolder>): (r: DebugOutcome)
    ensures instanceName !in Debuggable ==> r == Rejected("debug " + instanceName + " is not supported yet ")
    ensures r.Attach? <==> instanceName in Debuggable && exists i :: 0 <= i < |folders| && folders[i].name == instanceName
    ensures r.Attach? ==> r.folder == FindFolder(folders, instanceName).value
    ensures r.Attach? ==> r.config.Type() == (if instanceName == "tikv" then "lldb" else "go")
    ensures r.Attach? ==> r.config.Request() == "attach"
    ensures instanceName in Debuggable && FindFolder(folders, instanceName).None? ==>
      r == Rejected(instanceName + " is not included in workspace, please add it into workspace.")
    ensures r.Attach? ==>
      r.config.name == (if instanceName == "tidb" then "Attach TiDB" else if instanceName == "pd" then "Attach PD" else "Attach TiKV")
    ensures r.Attach? && r.config.GoAttach? ==> r.config.processId == ToNumber(pid)
    ensures r.Attach? && r.config.LldbAttach? ==> r.config.pid == ToNumber(pid)
  {
    if instanceName !in Debuggable then
      Rejected("debug " + instanceName + " is not supported yet ")
    else
      match FindFolder(folders, instanceName)
      case None => Rejected(instanceName + " is not included in workspace, please add it into workspace.")
      case Some(wd) => Attach(wd, ConfigFor(instanceName, pid))
  }

  /** `debugInstances`: one independent attempt per pid of one component. */
  function DebugInstances(comp: string, pids: seq<string>, folders: seq<WorkspaceFolder>): (outcomes: seq<DebugOutcome>)
    ensures |outcomes| == |pids|
    ensures forall i :: 0 <= i < |pids| ==> outcomes[i] == DebugInstance(comp, pids[i], folders)
  {
    if |pids| == 0 then [] else [DebugInstance(comp, pids[0], folders)] + DebugInstances(comp, pids[1..], folders)
  }

  /** A tree item of the playground view: its component and the pid text it carries. */
  datatype Item = Item(comp: string, pids: string)

  /** `debugCluster`: forwards the items whose component is debuggable, in order. */
  function DebugCluster(children: seq<Item>, folders: seq<WorkspaceFolder>): seq<DebugOutcome> {
    if |children| == 0 then []
    else
      var c := children[0];
      (if c.comp in Debuggable then [DebugInstance(c.comp, c.pids, folders)] else [])
        + DebugCluster(children[1..], folders)
  }

  /** The items `debugCluster` forwards. */
  function Forwarded(children: seq<Item>): seq<Item> {
    if |children| == 0 then []
    else (if children[0].comp in Debuggable then [children[0]] else []) + Forwarded(children[1..])
  }

  /** `debugCluster` attempts exactly the debuggable items, in their order, and never
      produces the "not supported" rejection. */
  lemma {:induction false} DebugClusterForwards(children: seq<Item>, folders: seq<WorkspaceFolder>)
    ensures |DebugCluster(children, folders)| == |Forwarded(children)|
    ensures forall i :: 0 <= i < |Forwarded(children)| ==>
      Forwarded(children)[i].comp in Debuggable
      && DebugCluster(children, folders)[i] == DebugInstance(Forwarded(children)[i].comp, Forwarded(children)[i].pids, folders)
  {
    if |children| > 0 {
      DebugClusterForwards(children[1..], folders);
    }
  }
}
