/** The translation of a playground configuration document into the `tiup playground`
    command line: one rendering rule per key, local builds for `<prefix>.binpath = "current"`,
    and the assembly of the final shell command. */
module Translator {
  import opened Host
  import opened Text

  /** A parsed configuration value: a boolean, a string, or any other value
      together with the text JavaScript renders it as. */
  datatype Value = Bool(b: bool) | Str(s: string) | Other(text: string)

  /** One key of the parsed document; a document lists its keys in document order. */
  datatype Entry = Entry(key: string, value: Value)

  /** The arguments and the pre-launch build commands, both in emission order. */
  datatype Plan = Plan(args: seq<string>, preCmds: seq<string>)

  /** Translation stops at a `.config` key whose value is neither a boolean nor a
      string: `startPlayground` calls `startsWith` on it, which throws. */
  datatype TranslateError = ConfigValueNotString(key: string)

  const VersionKey := "tidb.version"
  const ConfigPrefix := "components-config"
  const LocalBinary := "current"

  /** The components that can be built from a workspace checkout. */
  const Buildable: set<string> := {"tidb", "tikv", "pd"}

  /** `${v}` */
  function Render(v: Value): string {
    match v
    case Bool(b) => if b then "true" else "false"
    case Str(s) => s
    case Other(t) => t
  }

  /** `path.join(dir, rel)`, taken as a plain concatenation with one separator. */
  function PathJoin(dir: string, rel: string): string {
    dir + "/" + rel
  }

  /** `key.split('.')[0]`: the text of the key before its first dot. */
  function KeyPrefix(key: string): string {
    Split(key, '.')[0]
  }

  /** The prefix to role table: db is tidb, kv is tikv, pd is pd, any other prefix is itself. */
  function RoleOf(prefix: string): string {
    if prefix == "db" then "tidb"
    else if prefix == "kv" then "tikv"
    else if prefix == "pd" then "pd"
    else prefix
  }

  /** Exactly five key prefixes name a buildable component: its short and its full name. */
  lemma BuildablePrefixes(prefix: string)
    ensures RoleOf(prefix) in Buildable <==> prefix in {"db", "kv", "pd", "tidb", "tikv"}
    ensures RoleOf(prefix) == "tidb" <==> prefix == "db" || prefix == "tidb"
    ensures RoleOf(prefix) == "tikv" <==> prefix == "kv" || prefix == "tikv"
  {
  }

  /** The build command for a component checked out at `root`. */
  function BuildCommand(role: string, root: string): string
    requires role in Buildable
  {
    if role == "tidb" then
      "cd " + root + " && make && go build -gcflags='-N -l' -o ./bin/tidb-server ./cmd/tidb-server/main.go"
    else if role == "tikv" then
      "cd " + root + " && make build"
    else
      "cd " + root + " && make && go build -gcflags='-N -l' -o ./bin/pd-server cmd/pd-server/main.go"
  }

  /** Where that build leaves the server binary. */
  function BuiltBinary(role: string, root: string): string
    requires role in Buildable
  {
    if role == "tidb" then root + "/bin/tidb-server"
    else if role == "tikv" then root + "/target/debug/tikv-server"
    else root + "/bin/pd-server"
  }

  /** What one workspace folder contributes for `key = "current"`: a folder named
      `role` adds a build command and an argument naming the binary that build produces. */
  function FolderPlan(key: string, role: string, f: WorkspaceFolder): Plan {
    if f.name == role && role in Buildable then
      Plan(["--" + key + " " + BuiltBinary(role, f.root)], [BuildCommand(role, f.root)])
    else Plan([], [])
  }

  /** The workspace scan for `key = "current"`, folder by folder. */
  function LocalBuild(key: string, role: string, folders: seq<WorkspaceFolder>): Plan {
    if |folders| == 0 then Plan([], [])
    else Then(LocalBuild(key, role, folders[..|folders| - 1]), FolderPlan(key, role, folders[|folders| - 1]))
  }

  /** The entries that make the translation throw. */
  predicate Throws(e: Entry) {
    e.key != VersionKey && e.value.Other? && EndsWith(e.key, ".config")
  }

  /** The rendering rules for one key, the first applicable one winning. */
  function KeyPlan(e: Entry, configDir: string, folders: seq<WorkspaceFolder>): Result<Plan, TranslateError> {
    var k, v := e.key, e.value;
    if k == VersionKey || v == Str("") then Ok(Plan([], []))
    else if v.Bool? then Ok(Plan(["--" + k + "=" + Render(v)], []))
    else if EndsWith(k, ".config") && !v.Str? then Err(ConfigValueNotString(k))
    else if EndsWith(k, ".config") && StartsWith(v.s, ConfigPrefix) then
      Ok(Plan(["--" + k + " \"" + PathJoin(configDir, v.s) + "\""], []))
    else if EndsWith(k, ".binpath") && v == Str(LocalBinary) then
      Ok(LocalBuild(k, RoleOf(KeyPrefix(k)), folders))
    else Ok(Plan(["--" + k + " " + Render(v)], []))
  }

  /** Two plans one after the other. */
  function Then(p: Plan, q: Plan): Plan {
    Plan(p.args + q.args, p.preCmds + q.preCmds)
  }

  /** One result after another: the first error wins, otherwise the plans are concatenated. */
  function AndThen(a: Result<Plan, TranslateError>, b: Result<Plan, TranslateError>): Result<Plan, TranslateError> {
    match a
    case Err(e) => Err(e)
    case Ok(p) =>
      match b
      case Err(e) => Err(e)
      case Ok(q) => Ok(Then(p, q))
  }

  /** The whole document, key by key in document order; the first throwing key ends it. */
  function Translate(doc: seq<Entry>, configDir: string, folders: seq<WorkspaceFolder>): Result<Plan, TranslateError> {
    if |doc| == 0 then Ok(Plan([], []))
    else AndThen(Translate(doc[..|doc| - 1], configDir, folders), KeyPlan(doc[|doc| - 1], configDir, folders))
  }

  // ---------------------------------------------------------------------------
  // Properties of the translation.

  lemma AndThenAssociative(a: Result<Plan, TranslateError>, b: Result<Plan, TranslateError>, c: Result<Plan, TranslateError>)
    ensures AndThen(AndThen(a, b), c) == AndThen(a, AndThen(b, c))
  {
    if a.Ok? && b.Ok? && c.Ok? {
      assert Then(Then(a.value, b.value), c.value) == Then(a.value, Then(b.value, c.value));
    }
  }

  lemma AndThenEmpty(a: Result<Plan, TranslateError>)
    ensures AndThen(a, Ok(Plan([], []))) == a
  {
    if a.Ok? {
      assert Then(a.value, Plan([], [])) == a.value;
    }
  }

  /** Translating a document in two parts gives the concatenation of the parts'
      arguments and pre-commands, in order; an error in the first part wins. */
  lemma {:induction false} TranslateConcat(d1: seq<Entry>, d2: seq<Entry>, configDir: string, folders: seq<WorkspaceFolder>)
    ensures Translate(d1 + d2, configDir, folders) ==
      AndThen(Translate(d1, configDir, folders), Translate(d2, configDir, folders))
  {
    if |d2| == 0 {
      assert d1 + d2 == d1;
      AndThenEmpty(Translate(d1, configDir, folders));
    } else {
      var init := d2[..|d2| - 1];
      assert (d1 + d2)[..|d1 + d2| - 1] == d1 + init;
      assert (d1 + d2)[|d1 + d2| - 1] == d2[|d2| - 1];
      TranslateConcat(d1, init, configDir, folders);
      AndThenAssociative(Translate(d1, configDir, folders), Translate(init, configDir, folders),
        KeyPlan(d2[|d2| - 1], configDir, folders));
    }
  }

  /** The version key and keys whose value is the empty string emit nothing,
      wherever they stand in the document. */
  lemma SkippedKeyEmitsNothing(d1: seq<Entry>, e: Entry, d2: seq<Entry>, configDir: string, folders: seq<WorkspaceFolder>)
    requires e.key == VersionKey || e.value == Str("")
    ensures Translate(d1 + [e] + d2, configDir, folders) == Translate(d1 + d2, configDir, folders)
  {
    TranslateConcat(d1 + [e], d2, configDir, folders);
    TranslateConcat(d1, d2, configDir, folders);
    assert (d1 + [e])[..|d1 + [e]| - 1] == d1;
    AndThenEmpty(Translate(d1, configDir, folders));
  }

  /** The translation fails exactly when some key throws, and then with the first such key. */
  lemma {:induction false} TranslateFails(doc: seq<Entry>, configDir: string, folders: seq<WorkspaceFolder>)
    ensures Translate(doc, configDir, folders).Err? <==> exists i :: 0 <= i < |doc| && Throws(doc[i])
    ensures Translate(doc, configDir, folders).Err? ==>
      exists i :: 0 <= i < |doc| && Throws(doc[i])
        && Translate(doc, configDir, folders) == Err(ConfigValueNotString(doc[i].key))
        && forall j :: 0 <= j < i ==> !Throws(doc[j])
  {
    if |doc| > 0 {
      var init := doc[..|doc| - 1];
      TranslateFails(init, configDir, folders);
      forall i | 0 <= i < |init| ensures init[i] == doc[i] { }
      assert KeyPlan(doc[|doc| - 1], configDir, folders).Err? <==> Throws(doc[|doc| - 1]);
      if Translate(init, configDir, folders).Ok? && Throws(doc[|doc| - 1]) {
        assert forall j :: 0 <= j < |doc| - 1 ==> !Throws(doc[j]);
      }
    }
  }

  /** The roots of the workspace folders with the given name, in folder order. */
  function RootsNamed(folders: seq<WorkspaceFolder>, name: string): seq<string> {
    if |folders| == 0 then []
    else (if folders[0].name == name then [folders[0].root] else []) + RootsNamed(folders[1..], name)
  }

  lemma {:induction false} RootsNamedSnoc(folders: seq<WorkspaceFolder>, f: WorkspaceFolder, name: string)
    ensures RootsNamed(folders + [f], name) == RootsNamed(folders, name) + (if f.name == name then [f.root] else [])
  {
    if |folders| == 0 {
      assert folders + [f] == [f];
    } else {
      assert (folders + [f])[1..] == folders[1..] + [f];
      RootsNamedSnoc(folders[1..], f, name);
    }
  }

  /** `key = "current"` emits one build command and one argument per workspace folder
      named after the key's role, in folder order, and nothing at all when there is no
      such folder or the role is not buildable. */
  lemma {:induction false} LocalBuildPerFolder(key: string, role: string, folders: seq<WorkspaceFolder>)
    ensures var p, roots := LocalBuild(key, role, folders), RootsNamed(folders, role);
      |p.args| == |p.preCmds| == (if role in Buildable then |roots| else 0)
      && (role in Buildable ==> forall i :: 0 <= i < |roots| ==>
            p.args[i] == "--" + key + " " + BuiltBinary(role, roots[i])
            && p.preCmds[i] == BuildCommand(role, roots[i]))
  {
    if |folders| > 0 {
      var init, f := folders[..|folders| - 1], folders[|folders| - 1];
      assert folders == init + [f];
      LocalBuildPerFolder(key, role, init);
      RootsNamedSnoc(init, f, role);
      var p0, roots0 := LocalBuild(key, role, init), RootsNamed(init, role);
      var p, roots := LocalBuild(key, role, folders), RootsNamed(folders, role);
      assert p == Then(p0, FolderPlan(key, role, f));
      if f.name == role && role in Buildable {
        assert roots == roots0 + [f.root];
        forall i | 0 <= i < |roots|
          ensures p.args[i] == "--" + key + " " + BuiltBinary(role, roots[i])
          ensures p.preCmds[i] == BuildCommand(role, roots[i])
        {
          if i < |roots0| {
            assert p.args[i] == p0.args[i] && p.preCmds[i] == p0.preCmds[i] && roots[i] == roots0[i];
          }
        }
      } else {
        assert p == p0;
        assert role in Buildable ==> roots == roots0;
      }
    }
  }

  /** Without a folder named after the role, or for a role that cannot be built, a
      local-build key emits nothing. */
  lemma NoCheckoutNoBuild(key: string, role: string, folders: seq<WorkspaceFolder>)
    requires role !in Buildable || forall i :: 0 <= i < |folders| ==> folders[i].name != role
    ensures LocalBuild(key, role, folders) == Plan([], [])
  {
    if role in Buildable {
      RootsNamedEmpty(folders, role);
    }
    LocalBuildPerFolder(key, role, folders);
  }

  lemma {:induction false} RootsNamedEmpty(folders: seq<WorkspaceFolder>, name: string)
    requires forall i :: 0 <= i < |folders| ==> folders[i].name != name
    ensures RootsNamed(folders, name) == []
  {
    if |folders| > 0 {
      RootsNamedEmpty(folders[1..], name);
    }
  }

  /** Every argument a key emits starts with `--` and the key itself. */
  lemma ArgumentsNameTheirKey(e: Entry, configDir: string, folders: seq<WorkspaceFolder>)
    ensures KeyPlan(e, configDir, folders).Ok? ==>
      forall a :: a in KeyPlan(e, configDir, folders).value.args ==> StartsWith(a, "--" + e.key)
  {
    var k, v := e.key, e.value;
    var head := "--" + k;
    if k == VersionKey || v == Str("") {
    } else if v.Bool? {
      PrefixStartsWith(head, "=" + Render(v));
      assert "--" + k + "=" + Render(v) == head + ("=" + Render(v));
    } else if EndsWith(k, ".config") && !v.Str? {
    } else if EndsWith(k, ".config") && StartsWith(v.s, ConfigPrefix) {
      var rest := " \"" + PathJoin(configDir, v.s) + "\"";
      PrefixStartsWith(head, rest);
      assert "--" + k + " \"" + PathJoin(configDir, v.s) + "\"" == head + rest;
    } else if EndsWith(k, ".binpath") && v == Str(LocalBinary) {
      LocalBuildNamesKey(k, RoleOf(KeyPrefix(k)), folders);
    } else {
      PrefixStartsWith(head, " " + Render(v));
      assert "--" + k + " " + Render(v) == head + (" " + Render(v));
    }
  }

  lemma {:induction false} LocalBuildNamesKey(key: string, role: string, folders: seq<WorkspaceFolder>)
    ensures forall a :: a in LocalBuild(key, role, folders).args ==> StartsWith(a, "--" + key)
  {
    if |folders| > 0 {
      var f := folders[|folders| - 1];
      LocalBuildNamesKey(key, role, folders[..|folders| - 1]);
      if f.name == role && role in Buildable {
        PrefixStartsWith("--" + key, " " + BuiltBinary(role, f.root));
        assert "--" + key + " " + BuiltBinary(role, f.root) == "--" + key + (" " + BuiltBinary(role, f.root));
      }
    }
  }

  lemma PrefixStartsWith(head: string, rest: string)
    ensures StartsWith(head + rest, head)
  {
    assert (head + rest)[..|head|] == head;
  }

  // ---------------------------------------------------------------------------
  // Command assembly.

  /** `obj['tidb.version'] || ''`: the first version entry's text, empty when absent or falsy. */
  function VersionOf(doc: seq<Entry>): (version: string)
    ensures (forall i :: 0 <= i < |doc| ==> doc[i].key != VersionKey) ==> version == ""
    ensures forall i :: 0 <= i < |doc| && doc[i].key == VersionKey && (forall j :: 0 <= j < i ==> doc[j].key != VersionKey) ==>
      (doc[i].value.Str? ==> version == doc[i].value.s)
      && (doc[i].value == Bool(true) ==> version == "true")
      && (doc[i].value == Bool(false) ==> version == "")
  {
    if |doc| == 0 then ""
    else if doc[0].key == VersionKey then
      match doc[0].value
      case Bool(b) => if b then "true" else ""
      case Str(s) => s
      case Other(t) => t
    else VersionOf(doc[1..])
  }

  /** The playground invocation itself. */
  function PlaygroundCommand(version: string, args: seq<string>): string {
    "tiup playground " + version + " " + Join(args, " ")
  }

  /** The line sent to the terminal: build steps and a return home first when there are
      any, then the playground invocation, then `exit`. */
  function LaunchCommand(version: string, plan: Plan): string {
    var full := PlaygroundCommand(version, plan.args) + " && exit";
    if |plan.preCmds| > 0 then Join(plan.preCmds + ["cd ~"], " && ") + " && " + full
    else full
  }

  lemma {:induction false} JoinSnoc(parts: seq<string>, last: string, sep: string)
    requires |parts| > 0
    ensures Join(parts + [last], sep) == Join(parts, sep) + sep + last
  {
    if |parts| > 1 {
      assert (parts + [last])[1..] == parts[1..] + [last];
      JoinSnoc(parts[1..], last, sep);
    } else {
      assert parts + [last] == [parts[0], last];
    }
  }

  lemma JoinStartsWithFirst(parts: seq<string>, sep: string)
    requires |parts| > 0
    ensures StartsWith(Join(parts, sep), parts[0])
  {
  }

  /** The launch line always ends with the playground invocation followed by `exit`; without
      build steps it is exactly that, and with them it starts with the first build step and
      returns to the home directory right before the invocation. */
  lemma LaunchCommandShape(version: string, plan: Plan)
    ensures var tail := PlaygroundCommand(version, plan.args) + " && exit";
      EndsWith(LaunchCommand(version, plan), tail)
      && (plan.preCmds == [] ==> LaunchCommand(version, plan) == tail)
      && (plan.preCmds != [] ==>
            StartsWith(LaunchCommand(version, plan), plan.preCmds[0])
            && EndsWith(LaunchCommand(version, plan), " && cd ~ && " + tail))
  {
    var tail := PlaygroundCommand(version, plan.args) + " && exit";
    if plan.preCmds != [] {
      JoinSnoc(plan.preCmds, "cd ~", " && ");
      var head := Join(plan.preCmds, " && ");
      JoinStartsWithFirst(plan.preCmds, " && ");
      assert LaunchCommand(version, plan) == head + (" && cd ~ && " + tail);
      assert LaunchCommand(version, plan) == plan.preCmds[0] + (head[|plan.preCmds[0]|..] + " && cd ~ && " + tail);
    }
  }

  // ---------------------------------------------------------------------------
  // The translation as `startPlayground` performs it: loops appending to two lists.

  /** The loop over the document's keys, appending to the argument and pre-command
      lists as it goes; a throwing key abandons the lists. */
  method TranslateDocument(doc: seq<Entry>, configDir: string, folders: seq<WorkspaceFolder>)
    returns (r: Result<Plan, TranslateError>)
    ensures r == Translate(doc, configDir, folders)
  {
    var args: seq<string> := [];
    var preCmds: seq<string> := [];
    var i := 0;
    while i < |doc|
      invariant 0 <= i <= |doc|
      invariant Translate(doc[..i], configDir, folders) == Ok(Plan(args, preCmds))
    {
      assert doc[..i + 1][..i] == doc[..i];
      var step := AddKey(doc[i], configDir, folders, args, preCmds);
      if step.Err? {
        StopsAtError(doc, i + 1, configDir, folders);
        return step;
      }
      args, preCmds := step.value.args, step.value.preCmds;
      i := i + 1;
    }
    assert doc[..i] == doc;
    return Ok(Plan(args, preCmds));
  }

  /** The body of the per-key callback: the lists extended by what the key emits. */
  method AddKey(e: Entry, configDir: string, folders: seq<WorkspaceFolder>, args0: seq<string>, preCmds0: seq<string>)
    returns (r: Result<Plan, TranslateError>)
    ensures r == AndThen(Ok(Plan(args0, preCmds0)), KeyPlan(e, configDir, folders))
  {
    var k, v := e.key, e.value;
    var args, preCmds := args0, preCmds0;
    if k != VersionKey && v != Str("") {
      if v.Bool? {
        args := args + ["--" + k + "=" + Render(v)];
      } else if EndsWith(k, ".config") && !v.Str? {
        return Err(ConfigValueNotString(k));
      } else if EndsWith(k, ".config") && StartsWith(v.s, ConfigPrefix) {
        args := args + ["--" + k + " \"" + PathJoin(configDir, v.s) + "\""];
      } else if EndsWith(k, ".binpath") && v == Str(LocalBinary) {
        args, preCmds := AddLocalBuild(k, RoleOf(KeyPrefix(k)), folders, args, preCmds);
      } else {
        args := args + ["--" + k + " " + Render(v)];
      }
    }
    assert preCmds0 + [] == preCmds0 && args0 + [] == args0;
    return Ok(Plan(args, preCmds));
  }

  /** The loop over the workspace folders for `key = "current"`. */
  method AddLocalBuild(k: string, role: string, folders: seq<WorkspaceFolder>, args0: seq<string>, preCmds0: seq<string>)
    returns (args: seq<string>, preCmds: seq<string>)
    ensures Plan(args, preCmds) == Then(Plan(args0, preCmds0), LocalBuild(k, role, folders))
  {
    args, preCmds := args0, preCmds0;
    var j := 0;
    while j < |folders|
      invariant 0 <= j <= |folders|
      invariant Then(Plan(args0, preCmds0), LocalBuild(k, role, folders[..j])) == Plan(args, preCmds)
    {
      var f := folders[j];
      LocalBuildStep(k, role, folders, j);
      ThenAssociative(Plan(args0, preCmds0), LocalBuild(k, role, folders[..j]), FolderPlan(k, role, f));
      ghost var before := Plan(args, preCmds);
      if f.name == role && role in Buildable {
        preCmds := preCmds + [BuildCommand(role, f.root)];
        args := args + ["--" + k + " " + BuiltBinary(role, f.root)];
      }
      assert Plan(args, preCmds) == Then(before, FolderPlan(k, role, f));
      j := j + 1;
    }
    assert folders[..j] == folders;
  }

  lemma LocalBuildStep(key: string, role: string, folders: seq<WorkspaceFolder>, j: nat)
    requires j < |folders|
    ensures LocalBuild(key, role, folders[..j + 1]) == Then(LocalBuild(key, role, folders[..j]), FolderPlan(key, role, folders[j]))
  {
    assert folders[..j + 1][..j] == folders[..j];
  }

  lemma ThenAssociative(p: Plan, q: Plan, r: Plan)
    ensures Then(Then(p, q), r) == Then(p, Then(q, r))
  {
    assert (p.args + q.args) + r.args == p.args + (q.args + r.args);
    assert (p.preCmds + q.preCmds) + r.preCmds == p.preCmds + (q.preCmds + r.preCmds);
  }

  /** Once a prefix of the document fails, the whole translation fails the same way. */
  lemma StopsAtError(doc: seq<Entry>, n: nat, configDir: string, folders: seq<WorkspaceFolder>)
    requires n <= |doc|
    requires Translate(doc[..n], configDir, folders).Err?
    ensures Translate(doc, configDir, folders) == Translate(doc[..n], configDir, folders)
  {
    assert doc == doc[..n] + doc[n..];
    TranslateConcat(doc[..n], doc[n..], configDir, folders);
  }
}
