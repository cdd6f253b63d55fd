/** The sandbox of one test, humane_rework/src/civilization.rs: the state
    its steps share (a server port picked on first use, a temporary
    directory created on first use, the browser window, the servers it
    started) and the operations on it that the modelled capabilities use.

    What the sandbox asks of the world outside it (creating a directory,
    stopping a server, aborting a task) is recorded, in order, in
    `effects`. What the world answers (the port the picker finds, the
    directory the system creates) is passed in. */
module Sandbox {
  import opened Wrappers
  import opened Text

  /** A TCP port, `u16`. */
  type Port = p: int | 0 <= p < 0x1_0000

  /** A window of the shared page browser. */
  datatype Window = Window(id: nat)

  /** `CommandOutput`. */
  datatype CommandOutput = CommandOutput(stdout: string, stderr: string)

  /** A server a step started: the port it listens on and the directory it
      serves. Its `ServerHandle` and the task that runs it are both named
      by it. */
  datatype Server = Server(port: Port, dir: string)

  datatype Effect =
    | CreateTempDir(path: string)
    | StopServer(server: Server)
    | AbortTask(server: Server)

  const NoPortMessage := "No port was available"
  const NoTempDirMessage := "testing on a system with a temp dir"

  /** `PathBuf::join` on the text of paths: an absolute name replaces the
      base, and otherwise the two are joined by a `/`, unless the base is
      empty or already ends in one. */
  function JoinPath(base: string, name: string): (r: string)
    ensures |name| > 0 && name[0] == '/' ==> r == name
    ensures !(|name| > 0 && name[0] == '/') ==>
              |r| >= |base| + |name| && r[..|base|] == base && r[|r| - |name|..] == name
              && |r| <= |base| + |name| + 1
              && (|r| == |base| + |name| + 1 ==> r[|base|] == '/')
  {
    if |name| > 0 && name[0] == '/' then name
    else if base == [] || base[|base| - 1] == '/' then base + name
    else base + "/" + name
  }

  /** The effects of stopping `servers` in order. */
  function Stops(servers: seq<Server>): (r: seq<Effect>)
    ensures |r| == |servers| && forall i :: 0 <= i < |r| ==> r[i] == StopServer(servers[i])
  {
    seq(|servers|, i requires 0 <= i < |servers| => StopServer(servers[i]))
  }

  /** The effects of aborting the tasks running `servers` in order. */
  function Aborts(servers: seq<Server>): (r: seq<Effect>)
    ensures |r| == |servers| && forall i :: 0 <= i < |r| ==> r[i] == AbortTask(servers[i])
  {
    seq(|servers|, i requires 0 <= i < |servers| => AbortTask(servers[i]))
  }

  /** `Civilization`. The universe it also holds is read only and is
      passed to the runner separately. */
  class Civilization {
    var tmpDir: Option<string>
    var lastCommandOutput: Option<CommandOutput>
    var assignedServerPort: Option<Port>
    var window: Option<Window>
    var threads: seq<Server>
    var handles: seq<Server>
    var envVars: map<string, string>
    var effects: seq<Effect>

    /** The sandbox `run_humane_experiment` starts every test with. */
    constructor ()
      ensures tmpDir.None? && lastCommandOutput.None? && assignedServerPort.None? && window.None?
      ensures threads == [] && handles == [] && envVars == map[] && effects == []
    {
      tmpDir, lastCommandOutput, assignedServerPort, window := None, None, None, None;
      threads, handles, envVars, effects := [], [], map[], [];
    }

    /** `ensure_port`: the assigned port, or the one the picker offers
      (`picked`), which becomes the assigned port; when the picker finds
      none the `expect` panics. */
    method EnsurePort(picked: Option<Port>) returns (r: Result<Port, ()>)
      modifies this`assignedServerPort
      ensures old(assignedServerPort).Some? ==>
                r == Ok(old(assignedServerPort).value) && assignedServerPort == old(assignedServerPort)
      ensures old(assignedServerPort).None? ==> assignedServerPort == picked
      ensures old(assignedServerPort).None? && picked.Some? ==> r == Ok(picked.value)
      ensures old(assignedServerPort).None? && picked.None? ==> r == Panic(NoPortMessage)
    {
      if assignedServerPort.None? {
        assignedServerPort := picked;
      }
      if assignedServerPort.None? {
        return Panic(NoPortMessage);
      }
      r := Ok(assignedServerPort.value);
    }

    /** `purge_port`. */
    method PurgePort()
      modifies this`assignedServerPort
      ensures assignedServerPort.None?
    {
      assignedServerPort := None;
    }

    /** `tmp_dir`: the temporary directory, created (at `created`, where
      the system puts it) on first use only; a system without one panics. */
    method TmpDir(created: Option<string>) returns (r: Result<string, ()>)
      modifies this`tmpDir, this`effects
      ensures old(tmpDir).Some? ==>
                r == Ok(old(tmpDir).value) && tmpDir == old(tmpDir) && effects == old(effects)
      ensures old(tmpDir).None? && created.Some? ==>
                r == Ok(created.value) && tmpDir == created
                && effects == old(effects) + [CreateTempDir(created.value)]
      ensures old(tmpDir).None? && created.None? ==>
                r == Panic(NoTempDirMessage) && tmpDir.None? && effects == old(effects)
    {
      if tmpDir.None? {
        if created.None? {
          return Panic(NoTempDirMessage);
        }
        tmpDir := created;
        effects := effects + [CreateTempDir(created.value)];
      }
      r := Ok(tmpDir.value);
    }

    /** `tmp_file_path`: `filename` inside the temporary directory, which
      is created if need be. */
    method TmpFilePath(filename: string, created: Option<string>) returns (r: Result<string, ()>)
      modifies this`tmpDir, this`effects
      ensures old(tmpDir).Some? ==>
                r == Ok(JoinPath(old(tmpDir).value, filename)) && tmpDir == old(tmpDir)
                && effects == old(effects)
      ensures old(tmpDir).None? && created.Some? ==>
                r == Ok(JoinPath(created.value, filename)) && tmpDir == created
                && effects == old(effects) + [CreateTempDir(created.value)]
      ensures old(tmpDir).None? && created.None? ==>
                r == Panic(NoTempDirMessage) && tmpDir.None? && effects == old(effects)
    {
      var dir := TmpDir(created);
      if !dir.Ok? {
        return Panic(dir.message);
      }
      r := Ok(JoinPath(dir.value, filename));
    }

    /** `shutdown`: every server is stopped, then every task aborted, in
      the order they were started; neither list is cleared. */
    method Shutdown()
      modifies this`effects
      ensures effects == old(effects) + Stops(handles) + Aborts(threads)
    {
      for i := 0 to |handles|
        invariant effects == old(effects) + Stops(handles[..i])
      {
        assert Stops(handles[..i + 1]) == Stops(handles[..i]) + [StopServer(handles[i])];
        effects := effects + [StopServer(handles[i])];
      }
      assert handles[..|handles|] == handles;
      var stopped := effects;
      for j := 0 to |threads|
        invariant effects == stopped + Aborts(threads[..j])
      {
        assert Aborts(threads[..j + 1]) == Aborts(threads[..j]) + [AbortTask(threads[j])];
        effects := effects + [AbortTask(threads[j])];
      }
      assert threads[..|threads|] == threads;
    }
  }

  /** After `purge_port` the next `ensure_port` takes the picker's port,
      whatever was assigned before. */
  method RepickAfterPurge(civ: Civilization, picked: Option<Port>) returns (r: Result<Port, ()>)
    modifies civ`assignedServerPort
    ensures civ.assignedServerPort == picked
    ensures picked.Some? ==> r == Ok(picked.value)
    ensures picked.None? ==> r == Panic(NoPortMessage)
  {
    civ.PurgePort();
    r := civ.EnsurePort(picked);
  }

  /** `tmp_dir` twice: the second call returns the path of the first and
      creates nothing, whatever the system would offer. */
  method TmpDirTwice(civ: Civilization, first: Option<string>, second: Option<string>)
    returns (a: Result<string, ()>, b: Result<string, ()>)
    modifies civ`tmpDir, civ`effects
    ensures a.Ok? ==> b == a
    ensures a.Ok? ==> |civ.effects| <= |old(civ.effects)| + 1
  {
    a := civ.TmpDir(first);
    b := civ.TmpDir(second);
  }
}
