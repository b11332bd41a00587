/** SW_Config_1.5.py: load the configuration commands (comments and blank
    lines dropped), then for every address of the IP list make one connection
    attempt, push the whole command set, and log what happened; the connection
    is closed in a `finally` block only when it was opened. */
module ConfigPush {
  import opened Common

  // ---------------------------------------------------------------- load_config_commands

  /** Whether a stripped line of the commands file is kept. */
  predicate IsCommand(stripped: string) {
    stripped != [] && !StartsWith(stripped, "#")
  }

  /** The kept lines among the stripped lines of a commands file, in file order. */
  function KeepCommands(stripped: seq<string>): (r: seq<string>)
    ensures |r| <= |stripped|
    ensures forall k :: 0 <= k < |r| ==> IsCommand(r[k])
  {
    if stripped == [] then []
    else if IsCommand(stripped[0]) then [stripped[0]] + KeepCommands(stripped[1..])
    else KeepCommands(stripped[1..])
  }

  /** `load_config_commands`: the lines of the file, or `None` when it does not
      exist (the function then returns the empty list). */
  function LoadConfigCommands(file: Option<seq<string>>): (r: seq<string>)
    ensures file.None? ==> r == []
    ensures forall k :: 0 <= k < |r| ==> r[k] != [] && r[k][0] != '#'
  {
    if file.None? then [] else KeepCommands(StripAll(file.value))
  }

  /** A line is kept exactly when it is one of the stripped lines and is neither
      blank nor a comment. */
  lemma {:induction false} KeepCommandsMembers(stripped: seq<string>, x: string)
    ensures x in KeepCommands(stripped) <==> x in stripped && IsCommand(x)
  {
    if stripped != [] {
      KeepCommandsMembers(stripped[1..], x);
      assert stripped == [stripped[0]] + stripped[1..];
    }
  }

  /** Every loaded command is the stripped form of a line of the file, so it
      has no whitespace at either end. */
  lemma LoadedCommandsAreStripped(lines: seq<string>, x: string)
    requires x in LoadConfigCommands(Some(lines))
    ensures Stripped(x) && IsCommand(x)
    ensures exists k :: 0 <= k < |lines| && Strip(lines[k]) == x
  {
    KeepCommandsMembers(StripAll(lines), x);
    var k :| 0 <= k < |lines| && StripAll(lines)[k] == x;
    StripIsStripped(lines[k]);
  }

  /** Keeping commands already kept changes nothing. */
  lemma {:induction false} KeepIsIdempotent(stripped: seq<string>)
    ensures KeepCommands(KeepCommands(stripped)) == KeepCommands(stripped)
  {
    if stripped != [] {
      KeepIsIdempotent(stripped[1..]);
      if IsCommand(stripped[0]) {
        var r := KeepCommands(stripped);
        assert r[0] == stripped[0] && r[1..] == KeepCommands(stripped[1..]);
      }
    }
  }

  /** A file made of loaded commands loads back unchanged. */
  lemma LoadIsIdempotent(lines: seq<string>)
    ensures LoadConfigCommands(Some(LoadConfigCommands(Some(lines)))) == LoadConfigCommands(Some(lines))
  {
    var r := LoadConfigCommands(Some(lines));
    forall k | 0 <= k < |r| ensures Strip(r[k]) == r[k] {
      LoadedCommandsAreStripped(lines, r[k]);
      StripOfStripped(r[k]);
    }
    assert StripAll(r) == r;
    KeepIsIdempotent(StripAll(lines));
  }

  // ---------------------------------------------------------------- main

  /** The exceptions `main` tells apart. */
  datatype Failure = Timeout | AuthenticationFailed | Unexpected(error: string)

  /** How a device answers: `connect` is `None` when `ConnectHandler` returns
      a connection, `push` is how `send_config_set` ends on it, and
      `disconnect` is `None` when `disconnect()` returns and the error when it
      raises. */
  datatype Switch = Switch(connect: Option<Failure>, push: PushReply, disconnect: Option<string>)

  datatype PushReply = Applied(output: string) | PushRaised(failure: Failure)

  /** What happened on one device: whether a connection object existed (so
      the `finally` block called `disconnect()` on it), how the attempt ended,
      and the error `disconnect()` raised, if it did. */
  datatype Attempt = Attempt(ip: string, connected: bool, outcome: Outcome, disconnectError: Option<string>)

  datatype Outcome = Configured(output: string) | Failed(failure: Failure)

  /** The attempt on one device, as the try/except/finally block decides it. */
  function AttemptOn(ip: string, sw: Switch): Attempt {
    if sw.connect.Some? then Attempt(ip, false, Failed(sw.connect.value), None)
    else
      match sw.push
      case Applied(out) => Attempt(ip, true, Configured(out), sw.disconnect)
      case PushRaised(f) => Attempt(ip, true, Failed(f), sw.disconnect)
  }

  lemma AttemptOnFlags(ip: string, sw: Switch)
    ensures AttemptOn(ip, sw).ip == ip
    ensures AttemptOn(ip, sw).connected <==> sw.connect.None?
    ensures AttemptOn(ip, sw).disconnectError.Some? <==> Aborts(sw)
  {
  }

  /** `disconnect()` in the `finally` block runs outside every `except`, so an
      exception it raises leaves the loop and `main`. */
  predicate Aborts(sw: Switch) { sw.connect.None? && sw.disconnect.Some? }

  /** The body of the loop over the IP list: one connection attempt, at most
      one push, and a disconnect only when the connection object exists; the
      attempt carries a disconnect error exactly when the device aborts the
      loop. */
  method ProcessDevice(ip: string, sw: Switch) returns (a: Attempt, disconnected: bool)
    ensures a == AttemptOn(ip, sw)
    ensures disconnected <==> sw.connect.None?
    ensures a.outcome.Configured? ==> sw.connect.None? && sw.push == Applied(a.outcome.output)
    ensures a.disconnectError.Some? <==> Aborts(sw)
  {
    var netConnect := false;
    var outcome: Outcome;
    if sw.connect.Some? {
      outcome := Failed(sw.connect.value);
    } else {
      netConnect := true;
      match sw.push
      case Applied(out) => outcome := Configured(out);
      case PushRaised(f) => outcome := Failed(f);
    }
    disconnected := netConnect;
    var closeError := if netConnect then sw.disconnect else None;
    a := Attempt(ip, netConnect, outcome, closeError);
  }

  /** The line the attempt adds to the SSH error log, if any: the device,
      then what went wrong. */
  function ErrorLine(a: Attempt): Option<string> {
    match a.outcome
    case Configured(_) => None
    case Failed(f) => Some(a.ip + ": " + FailureText(f))
  }

  function FailureText(f: Failure): string {
    match f
    case Timeout => "Timeout\n"
    case AuthenticationFailed => "Authentication Failed\n"
    case Unexpected(e) => "Unexpected Error - " + e + "\n"
  }

  /** An error-log line appears exactly for a failed attempt and names its device. */
  lemma ErrorLineOnlyOnFailure(a: Attempt)
    ensures ErrorLine(a).Some? <==> a.outcome.Failed?
    ensures ErrorLine(a).Some? ==> StartsWith(ErrorLine(a).value, a.ip + ": ")
  {
    if a.outcome.Failed? {
      StartsWithConcat(a.ip + ": ", FailureText(a.outcome.failure), a.ip + ": ");
    }
  }

  /** The deployment-log lines of one attempt. */
  function LogLines(a: Attempt, commands: seq<string>): seq<string> {
    ["Attempting connection to IP: " + a.ip]
    + (if a.connected then ["Successfully connected to " + a.ip] else [])
    + (match a.outcome
       case Configured(out) =>
         ["  Configuration Commands Sent:"] + Indented(commands)
         + ["  Configuration Output:\n" + out, "  Status: Configuration applied successfully."]
       case Failed(Timeout) => ["  SSH Failure: Timeout when connecting to " + a.ip]
       case Failed(AuthenticationFailed) => ["  SSH Failure: Authentication failed for " + a.ip]
       case Failed(Unexpected(e)) => ["  SSH Failure: An unexpected error occurred with " + a.ip + ": " + e])
    + (if a.connected && a.disconnectError.None? then ["  Disconnected from " + a.ip] else [])
    + (if a.disconnectError.None? then [Dashes(40) + "\n"] else [])
  }

  function Indented(commands: seq<string>): (r: seq<string>)
    ensures |r| == |commands| && forall k :: 0 <= k < |r| ==> r[k] == "    " + commands[k]
  {
    seq(|commands|, k requires 0 <= k < |commands| => "    " + commands[k])
  }

  function Dashes(n: nat): (r: string)
    ensures |r| == n && forall k :: 0 <= k < n ==> r[k] == '-'
  {
    if n == 0 then [] else Dashes(n - 1) + "-"
  }

  const LogHeader: string := "--- Cisco 2960X Configuration Deployment Log ---\n\n"

  const ErrorLogHeader: string := "--- Cisco 2960X SSH Error Log ---\n\n"

  /** How `main` ends: before anything for want of commands; after starting the
      logs for want of an IP file or of addresses in it; or after the attempts,
      with the devices on which `disconnect()` was called, in order, and the
      error of a `disconnect()` that raised and ended the script (which then
      never prints its closing message). */
  datatype Deployment =
    | NoCommands
    | NoIpFile
    | NoAddresses
    | Deployed(attempts: seq<Attempt>, disconnected: seq<string>, crash: Option<string>)

  /** The attempts from device `d` on, for the `d`-th address and `world(d)`:
      one per address, in order, up to and including the first device whose
      `disconnect()` raises. */
  function AttemptsFrom(ips: seq<string>, world: nat -> Switch, d: nat): (r: seq<Attempt>)
    requires d <= |ips|
    ensures |r| <= |ips| - d && (d < |ips| ==> |r| >= 1)
    decreases |ips| - d
  {
    if d == |ips| then []
    else if Aborts(world(d)) then [AttemptOn(ips[d], world(d))]
    else [AttemptOn(ips[d], world(d))] + AttemptsFrom(ips, world, d + 1)
  }

  /** The attempts stop at the first device whose `disconnect()` raises: the
      devices before it do not raise, and every address is reached exactly
      when no device before the last one raises. */
  lemma {:induction false} AttemptsStop(ips: seq<string>, world: nat -> Switch, d: nat)
    requires d <= |ips|
    ensures forall e :: d <= e < d + |AttemptsFrom(ips, world, d)| - 1 ==> !Aborts(world(e))
    ensures |AttemptsFrom(ips, world, d)| < |ips| - d ==> Aborts(world(d + |AttemptsFrom(ips, world, d)| - 1))
    ensures |AttemptsFrom(ips, world, d)| == |ips| - d <==> forall e :: d <= e < |ips| - 1 ==> !Aborts(world(e))
    decreases |ips| - d
  {
    if d < |ips| && !Aborts(world(d)) {
      AttemptsStop(ips, world, d + 1);
    }
  }

  /** The `k`-th attempt is the one on the `(d + k)`-th address, decided by
      that device's own answers. */
  lemma {:induction false} AttemptsFromAt(ips: seq<string>, world: nat -> Switch, d: nat, k: nat)
    requires d <= |ips| && k < |AttemptsFrom(ips, world, d)|
    ensures AttemptsFrom(ips, world, d)[k] == AttemptOn(ips[d + k], world(d + k))
    decreases k
  {
    if k > 0 {
      AttemptsFromAt(ips, world, d + 1, k - 1);
    }
  }

  lemma AttemptsFromStep(ips: seq<string>, world: nat -> Switch, d: nat)
    requires d < |ips|
    ensures AttemptsFrom(ips, world, d)
         == [AttemptOn(ips[d], world(d))] + (if Aborts(world(d)) then [] else AttemptsFrom(ips, world, d + 1))
  {
  }

  /** The error that ends the script: that of the last attempt, if its
      `disconnect()` raised. */
  function CrashOf(attempts: seq<Attempt>): Option<string> {
    if attempts == [] then None else attempts[|attempts| - 1].disconnectError
  }

  /** The addresses whose attempt opened a connection, in order. */
  function ConnectedIps(attempts: seq<Attempt>): seq<string> {
    if attempts == [] then []
    else (if attempts[0].connected then [attempts[0].ip] else []) + ConnectedIps(attempts[1..])
  }

  lemma ConnectedIpsCons(a: Attempt, rest: seq<Attempt>)
    ensures ConnectedIps([a] + rest) == (if a.connected then [a.ip] else []) + ConnectedIps(rest)
  {
    assert ([a] + rest)[0] == a && ([a] + rest)[1..] == rest;
  }

  lemma CrashOfCons(a: Attempt, rest: seq<Attempt>)
    ensures CrashOf([a] + rest) == if rest == [] then a.disconnectError else CrashOf(rest)
  {
    if rest != [] {
      assert ([a] + rest)[|rest|] == rest[|rest| - 1];
    }
  }

  /** The script ends with an exception exactly when some device from the
      `d`-th on raises in `disconnect()`. */
  lemma {:induction false} CrashMeansDisconnectRaised(ips: seq<string>, world: nat -> Switch, d: nat)
    requires d <= |ips|
    ensures CrashOf(AttemptsFrom(ips, world, d)).Some? <==> exists e :: d <= e < |ips| && Aborts(world(e))
    decreases |ips| - d
  {
    if d < |ips| {
      var a := AttemptOn(ips[d], world(d));
      AttemptOnFlags(ips[d], world(d));
      AttemptsFromStep(ips, world, d);
      if Aborts(world(d)) {
        CrashOfCons(a, []);
      } else {
        var rest := AttemptsFrom(ips, world, d + 1);
        CrashOfCons(a, rest);
        CrashMeansDisconnectRaised(ips, world, d + 1);
        if exists e :: d <= e < |ips| && Aborts(world(e)) {
          var e :| d <= e < |ips| && Aborts(world(e));
          assert d + 1 <= e;
        }
      }
    }
  }

  /** `main`, with `commandsFile` and `ipFile` the lines of the two files
      (`None` when missing) and `world(d)` the answers of the `d`-th device. */
  method Deploy(commandsFile: Option<seq<string>>, ipFile: Option<seq<string>>, world: nat -> Switch)
    returns (r: Deployment)
    ensures LoadConfigCommands(commandsFile) == [] ==> r == NoCommands
    ensures LoadConfigCommands(commandsFile) != [] && ipFile.None? ==> r == NoIpFile
    ensures LoadConfigCommands(commandsFile) != [] && ipFile.Some? && StripNonBlank(ipFile.value) == [] ==> r == NoAddresses
    ensures LoadConfigCommands(commandsFile) != [] && ipFile.Some? && StripNonBlank(ipFile.value) != [] ==>
      var attempts := AttemptsFrom(StripNonBlank(ipFile.value), world, 0);
      r == Deployed(attempts, ConnectedIps(attempts), CrashOf(attempts))
  {
    var commands := LoadConfigCommands(commandsFile);
    if commands == [] {
      return NoCommands;
    }
    if ipFile.None? {
      return NoIpFile;
    }
    var ips := StripNonBlank(ipFile.value);
    if ips == [] {
      return NoAddresses;
    }
    var attempts, disconnected, crash := DeployEach(ips, world);
    r := Deployed(attempts, disconnected, crash);
  }

  /** The loop of `main` over the addresses, left by an exception from
      `disconnect()`. */
  method DeployEach(ips: seq<string>, world: nat -> Switch)
    returns (attempts: seq<Attempt>, disconnected: seq<string>, crash: Option<string>)
    ensures attempts == AttemptsFrom(ips, world, 0)
    ensures disconnected == ConnectedIps(attempts)
    ensures crash == CrashOf(attempts)
  {
    attempts := [];
    disconnected := [];
    var d := 0;
    while d < |ips|
      invariant 0 <= d <= |ips|
      invariant attempts + AttemptsFrom(ips, world, d) == AttemptsFrom(ips, world, 0)
      invariant disconnected == ConnectedIps(attempts)
      invariant CrashOf(attempts) == None
      decreases |ips| - d
    {
      var a, closed := ProcessDevice(ips[d], world(d));
      AttemptsFromStep(ips, world, d);
      ConnectedIpsAppend(attempts, a);
      assert a.connected == closed && a.ip == ips[d];
      if closed {
        disconnected := disconnected + [ips[d]];
      }
      var next := attempts + [a];
      assert disconnected == ConnectedIps(next);
      assert CrashOf(next) == a.disconnectError;
      if a.disconnectError.Some? {
        return next, disconnected, a.disconnectError;
      }
      AppendAssoc(attempts, [a], AttemptsFrom(ips, world, d + 1));
      attempts := next;
      d := d + 1;
    }
    assert attempts + [] == attempts;
    crash := None;
  }

  lemma AppendAssoc(x: seq<Attempt>, y: seq<Attempt>, z: seq<Attempt>)
    ensures x + (y + z) == (x + y) + z
  {
  }

  lemma {:induction false} ConnectedIpsAppend(attempts: seq<Attempt>, a: Attempt)
    ensures ConnectedIps(attempts + [a]) == ConnectedIps(attempts) + (if a.connected then [a.ip] else [])
  {
    if attempts != [] {
      assert (attempts + [a])[1..] == attempts[1..] + [a];
      ConnectedIpsAppend(attempts[1..], a);
    }
  }

  /** The texts of the logs after a deployment: the deployment log starts with
      its header and gets every attempt's lines; the error log gets one line per
      failed attempt. */
  function ErrorLines(attempts: seq<Attempt>): seq<string> {
    if attempts == [] then []
    else (if ErrorLine(attempts[0]).Some? then [ErrorLine(attempts[0]).value] else []) + ErrorLines(attempts[1..])
  }

  function DeploymentLog(attempts: seq<Attempt>, commands: seq<string>): string {
    LogHeader + Concat(seq(|attempts|, k requires 0 <= k < |attempts| => Lines(LogLines(attempts[k], commands))))
  }

  function ErrorLog(attempts: seq<Attempt>): string {
    ErrorLogHeader + Concat(ErrorLines(attempts))
  }

  /** Each address makes exactly one attempt and adds at most one error line;
      the error lines are exactly as many as the failed attempts. */
  lemma {:induction false} OneErrorLinePerFailure(attempts: seq<Attempt>)
    ensures |ErrorLines(attempts)| <= |attempts|
    ensures |ErrorLines(attempts)| == |FailedOnes(attempts)|
  {
    if attempts != [] {
      OneErrorLinePerFailure(attempts[1..]);
      ErrorLineOnlyOnFailure(attempts[0]);
    }
  }

  function FailedOnes(attempts: seq<Attempt>): seq<Attempt> {
    if attempts == [] then []
    else (if attempts[0].outcome.Failed? then [attempts[0]] else []) + FailedOnes(attempts[1..])
  }

  /** Among the addresses the loop reaches, a device is disconnected exactly
      when its connect succeeded, so never when `ConnectHandler` raised. */
  lemma {:induction false} DisconnectOnlyWhenConnected(ips: seq<string>, world: nat -> Switch, d: nat, x: string)
    requires d <= |ips|
    ensures x in ConnectedIps(AttemptsFrom(ips, world, d))
        <==> exists e :: d <= e < d + |AttemptsFrom(ips, world, d)| && ips[e] == x && world(e).connect.None?
    decreases |ips| - d
  {
    if d < |ips| {
      var r := AttemptsFrom(ips, world, d);
      var first := AttemptOn(ips[d], world(d));
      AttemptOnFlags(ips[d], world(d));
      var rest := if Aborts(world(d)) then [] else AttemptsFrom(ips, world, d + 1);
      AttemptsFromStep(ips, world, d);
      assert r == [first] + rest;
      ConnectedIpsCons(first, rest);
      if !Aborts(world(d)) {
        DisconnectOnlyWhenConnected(ips, world, d + 1, x);
      }
      if x in ConnectedIps(r) && x !in ConnectedIps([first]) {
        assert x in ConnectedIps(rest);
        var e :| d + 1 <= e < d + 1 + |rest| && ips[e] == x && world(e).connect.None?;
        assert d <= e < d + |r|;
      }
      if exists e :: d <= e < d + |r| && ips[e] == x && world(e).connect.None? {
        var e :| d <= e < d + |r| && ips[e] == x && world(e).connect.None?;
        if e > d {
          assert d + 1 <= e < d + 1 + |rest|;
          assert x in ConnectedIps(rest);
        }
      }
    }
  }
}
