/** Serving a directory over HTTP, humane_rework/src/definitions/hosting/mod.rs:
    up to five attempts to bind a server to the sandbox's port, each failure
    purging the port so that the next attempt picks another.

    The world's answers are passed in: `pick(k)` is what the port picker
    offers during attempt `k`, `bind(k, p)` whether binding port `p`
    succeeds on attempt `k`, and `created` where the system creates the
    temporary directory if the sandbox has none yet. */
module Hosting {
  import opened Wrappers
  import opened JsonValues
  import opened Binding
  import opened Sandbox
  import Errors

  const MaxAttempts := 5
  const NotRunningMessage := "assertion failed: running"

  /** The port attempt `k` binds: the port already assigned on the first
      attempt, and otherwise the picker's, since every failed attempt
      purged the port. */
  function PortFor(prior: Option<Port>, pick: nat -> Option<Port>, k: nat): Option<Port>
  {
    if k == 0 && prior.Some? then prior else pick(k)
  }

  /** How the attempts end: bound on attempt `attempt`, stopped by the
      picker finding no port, or given up after the last attempt. */
  datatype HostOutcome = Bound(attempt: nat, port: Port) | NoPort(attempt: nat) | GaveUp

  /** The attempts from `k` on (the reference definition of the loop). */
  function Attempts(prior: Option<Port>, pick: nat -> Option<Port>, bind: (nat, Port) -> bool,
                    k: nat): HostOutcome
    decreases MaxAttempts - k
  {
    if k >= MaxAttempts then GaveUp
    else
      match PortFor(prior, pick, k)
      case None => NoPort(k)
      case Some(p) => if bind(k, p) then Bound(k, p) else Attempts(prior, pick, bind, k + 1)
  }

  /** Attempt `a` got a port and failed to bind it. */
  predicate FailedAttempt(prior: Option<Port>, pick: nat -> Option<Port>, bind: (nat, Port) -> bool,
                          a: nat)
  {
    PortFor(prior, pick, a).Some? && !bind(a, PortFor(prior, pick, a).value)
  }

  /** What the attempts mean: at most five, each one before the last
      failed to bind, a bound server listens on the port of its attempt,
      and giving up follows five failures. */
  lemma {:induction false} AttemptsMeaning(prior: Option<Port>, pick: nat -> Option<Port>,
                                           bind: (nat, Port) -> bool, k: nat)
    requires k <= MaxAttempts
    ensures var o := Attempts(prior, pick, bind, k);
            (o.Bound? ==> k <= o.attempt < MaxAttempts && PortFor(prior, pick, o.attempt) == Some(o.port)
                          && bind(o.attempt, o.port)
                          && forall a :: k <= a < o.attempt ==> FailedAttempt(prior, pick, bind, a))
            && (o.NoPort? ==> k <= o.attempt < MaxAttempts && PortFor(prior, pick, o.attempt).None?
                              && forall a :: k <= a < o.attempt ==> FailedAttempt(prior, pick, bind, a))
            && (o.GaveUp? ==> forall a :: k <= a < MaxAttempts ==> FailedAttempt(prior, pick, bind, a))
    decreases MaxAttempts - k
  {
    if k < MaxAttempts && PortFor(prior, pick, k).Some? && !bind(k, PortFor(prior, pick, k).value) {
      AttemptsMeaning(prior, pick, bind, k + 1);
    }
  }

  /** The temporary directory the first attempt finds or creates. */
  function TmpOf(existing: Option<string>, created: Option<string>): Option<string>
  {
    if existing.Some? then existing else created
  }

  /** The effects of finding or creating the temporary directory `tmp`. */
  function TmpEffects(before: seq<Effect>, existing: Option<string>, tmp: string): seq<Effect>
  {
    before + (if existing.None? then [CreateTempDir(tmp)] else [])
  }

  /** The state `host` leaves, case by case. When the first attempt finds
      no port, or no temporary directory, it panics and nothing but the
      port changes. Once the first attempt has got the directory, the
      directory is kept and its creation recorded, and then: a bound server
      is recorded once as a handle and once as a task, and every other end
      leaves the port purged, the servers as they were, and panics. */
  twostate predicate Hosted(civ: Civilization, dir: string, pick: nat -> Option<Port>,
                            bind: (nat, Port) -> bool, created: Option<string>,
                            new r: Result<(), Errors.StepError>)
    reads civ
  {
    var first := PortFor(old(civ.assignedServerPort), pick, 0);
    var o := Attempts(old(civ.assignedServerPort), pick, bind, 0);
    var tmp := TmpOf(old(civ.tmpDir), created);
    (first.None? ==>
       r == Panic(NoPortMessage) && civ.assignedServerPort.None?
       && civ.tmpDir == old(civ.tmpDir) && civ.effects == old(civ.effects))
    && (first.Some? && tmp.None? ==>
          r == Panic(NoTempDirMessage) && civ.assignedServerPort == first
          && civ.tmpDir == old(civ.tmpDir) && civ.effects == old(civ.effects))
    && (first.Some? && tmp.Some? ==>
          civ.tmpDir == tmp && civ.effects == TmpEffects(old(civ.effects), old(civ.tmpDir), tmp.value)
          && (o.Bound? ==>
                r == Ok(()) && civ.assignedServerPort == Some(o.port)
                && civ.handles == old(civ.handles) + [Server(o.port, JoinPath(tmp.value, dir))]
                && civ.threads == old(civ.threads) + [Server(o.port, JoinPath(tmp.value, dir))])
          && (o.NoPort? ==> r == Panic(NoPortMessage) && civ.assignedServerPort.None?)
          && (o.GaveUp? ==> r == Panic(NotRunningMessage) && civ.assignedServerPort.None?))
    && (!o.Bound? || tmp.None? ==> civ.handles == old(civ.handles) && civ.threads == old(civ.threads))
  }

  /** One attempt of the bind loop, attempt `k`: make sure of a port
      (`picked` unless one is assigned), find the file path in the
      temporary directory, and either record the bound server or purge the
      port. `Ok(true)` is a bound server, `Ok(false)` a failed bind, and a
      panic ends the loop. */
  method Attempt(civ: Civilization, dir: string, picked: Option<Port>, bind: (nat, Port) -> bool, k: nat,
                 created: Option<string>) returns (r: Result<bool, ()>)
    modifies civ`assignedServerPort, civ`tmpDir, civ`effects, civ`handles, civ`threads
    ensures var port := if old(civ.assignedServerPort).Some? then old(civ.assignedServerPort) else picked;
            var tmp := TmpOf(old(civ.tmpDir), created);
            (port.None? ==>
               r == Panic(NoPortMessage) && civ.assignedServerPort.None?
               && civ.tmpDir == old(civ.tmpDir) && civ.effects == old(civ.effects))
            && (port.Some? && tmp.None? ==>
                  r == Panic(NoTempDirMessage) && civ.assignedServerPort == port
                  && civ.tmpDir == old(civ.tmpDir) && civ.effects == old(civ.effects))
            && (port.Some? && tmp.Some? ==>
                  r == Ok(bind(k, port.value)) && civ.tmpDir == tmp
                  && civ.effects == TmpEffects(old(civ.effects), old(civ.tmpDir), tmp.value)
                  && (bind(k, port.value) ==>
                        civ.assignedServerPort == port
                        && civ.handles == old(civ.handles) + [Server(port.value, JoinPath(tmp.value, dir))]
                        && civ.threads == old(civ.threads) + [Server(port.value, JoinPath(tmp.value, dir))])
                  && (!bind(k, port.value) ==> civ.assignedServerPort.None?))
            && (!(port.Some? && tmp.Some? && bind(k, port.value)) ==>
                  civ.handles == old(civ.handles) && civ.threads == old(civ.threads))
  {
    var port := civ.EnsurePort(picked);
    if !port.Ok? {
      return Panic(port.message);
    }
    var path := civ.TmpFilePath(dir, created);
    if !path.Ok? {
      return Panic(path.message);
    }
    if bind(k, port.value) {
      var server := Server(port.value, path.value);
      civ.handles := civ.handles + [server];
      civ.threads := civ.threads + [server];
      r := Ok(true);
    } else {
      civ.PurgePort();
      r := Ok(false);
    }
  }

  /** `host`: the bind loop and its `assert!(running)`. */
  method Host(civ: Civilization, dir: string, pick: nat -> Option<Port>, bind: (nat, Port) -> bool,
              created: Option<string>) returns (r: Result<(), Errors.StepError>)
    modifies civ`assignedServerPort, civ`tmpDir, civ`effects, civ`handles, civ`threads
    ensures Hosted(civ, dir, pick, bind, created, r)
  {
    ghost var prior := old(civ.assignedServerPort);
    ghost var tmp := TmpOf(old(civ.tmpDir), created);
    ghost var o := Attempts(prior, pick, bind, 0);
    var attempts := 0;
    var running := false;
    while !running && attempts < MaxAttempts
      invariant 0 <= attempts <= MaxAttempts
      invariant attempts == 0 && !running ==>
                  civ.assignedServerPort == prior && civ.tmpDir == old(civ.tmpDir) && civ.effects == old(civ.effects)
      invariant attempts > 0 || running ==> tmp.Some? && civ.tmpDir == tmp
      invariant attempts > 0 && !running ==> civ.assignedServerPort.None?
      invariant !running ==> o == Attempts(prior, pick, bind, attempts)
      invariant !running ==> civ.handles == old(civ.handles) && civ.threads == old(civ.threads)
      invariant running ==> tmp.Some? && civ.assignedServerPort.Some?
                            && o == Bound(attempts, civ.assignedServerPort.value)
                            && civ.handles == old(civ.handles) + [Server(civ.assignedServerPort.value, JoinPath(tmp.value, dir))]
                            && civ.threads == old(civ.threads) + [Server(civ.assignedServerPort.value, JoinPath(tmp.value, dir))]
      invariant attempts > 0 || running ==> civ.effects == TmpEffects(old(civ.effects), old(civ.tmpDir), tmp.value)
      decreases MaxAttempts - attempts, if running then 0 else 1
    {
      var res := Attempt(civ, dir, pick(attempts), bind, attempts, created);
      if !res.Ok? {
        return Panic(res.message);
      }
      if res.value {
        running := true;
      } else {
        attempts := attempts + 1;
      }
    }
    if !running {
      return Panic(NotRunningMessage);
    }
    r := Ok(());
  }

  /** `HostDir::run`: an argument `dir` that is missing or not a string
      fails before any attempt, and otherwise the directory is hosted. */
  method HostDir(civ: Civilization, args: SegmentArgs, pick: nat -> Option<Port>,
                 bind: (nat, Port) -> bool, created: Option<string>) returns (r: Result<(), Errors.StepError>)
    modifies civ`assignedServerPort, civ`tmpDir, civ`effects, civ`handles, civ`threads
    ensures GetString(args, "dir").Err? ==>
              r == Err(Errors.External(GetString(args, "dir").error)) && unchanged(civ)
    ensures GetString(args, "dir").Ok? ==> Hosted(civ, GetString(args, "dir").value, pick, bind, created, r)
  {
    var dir := GetString(args, "dir");
    if !dir.Ok? {
      return Err(Errors.External(dir.error));
    }
    r := Host(civ, dir.value, pick, bind, created);
  }

  /** `DebugHostDir::run`: the same, after which the server's address is
      printed and the step waits; printing and waiting are not part of
      this model, and asking for the port again changes nothing. */
  method DebugHostDir(civ: Civilization, args: SegmentArgs, pick: nat -> Option<Port>,
                      bind: (nat, Port) -> bool, created: Option<string>)
    returns (r: Result<(), Errors.StepError>)
    modifies civ`assignedServerPort, civ`tmpDir, civ`effects, civ`handles, civ`threads
    ensures GetString(args, "dir").Err? ==>
              r == Err(Errors.External(GetString(args, "dir").error)) && unchanged(civ)
    ensures GetString(args, "dir").Ok? ==> Hosted(civ, GetString(args, "dir").value, pick, bind, created, r)
  {
    r := HostDir(civ, args, pick, bind, created);
    if r.Ok? {
      var port := civ.EnsurePort(pick(MaxAttempts));
    }
  }
}
