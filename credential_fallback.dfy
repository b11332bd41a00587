/** The username fallback shared by Cisco_ACL_Syntax_Logic.py and
    show_ip_access_list.py: the usernames are tried in order with one password,
    each failed try-block records one message, and the first try-block that
    completes ends the loop with the command output.

    A try-block (connect, `enable`, `send_command`, `disconnect` and whatever the
    script does with the output) is an oracle from the attempt's position in
    the username list to its outcome, so a username listed twice is tried
    twice, and the second try can complete after the first one failed. */
module Credentials {
  import opened Common

  /** How one try-block ends: with the command output, or with an exception. */
  datatype Attempt = Completed(output: string) | Raised(error: string)

  /** One entry of `failed_attempts`; its text is `FailureText`. */
  datatype FailedAttempt = FailedAttempt(ip: string, username: string, error: string)

  function FailureText(f: FailedAttempt): string {
    "Failed to connect to or authenticate with " + f.ip + " using username '" + f.username + "'. Error: " + f.error
  }

  /** The message names the device and, in quotes, the username. */
  lemma FailureTextNames(f: FailedAttempt)
    ensures Contains(FailureText(f), f.ip)
    ensures Contains(FailureText(f), "'" + f.username + "'")
  {
    var a := "Failed to connect to or authenticate with ";
    var b := " using username ";
    var c := "'" + f.username + "'";
    var d := ". Error: " + f.error;
    assert FailureText(f) == a + f.ip + (b + c + d);
    ContainsMiddle(a, f.ip, b + c + d);
    assert FailureText(f) == (a + f.ip + b) + c + d;
    ContainsMiddle(a + f.ip + b, c, d);
  }

  /** What the fallback loop does from username `k` on: the failures it records,
      and the output of the try-block that completed, if any did. */
  datatype Fallback = Fallback(failures: seq<FailedAttempt>, output: Option<string>)

  function TryFrom(ip: string, users: seq<string>, tryLogin: nat -> Attempt, k: nat): Fallback
    requires k <= |users|
    decreases |users| - k
  {
    if k == |users| then Fallback([], None)
    else
      match tryLogin(k)
      case Completed(out) => Fallback([], Some(out))
      case Raised(e) =>
        var rest := TryFrom(ip, users, tryLogin, k + 1);
        Fallback([FailedAttempt(ip, users[k], e)] + rest.failures, rest.output)
  }

  /** When the usernames before index `j` fail and the one at `j` completes (or
      `j` is past the end), the loop records exactly one failure per username
      before `j`, in order, naming each, and ends with `j`'s output (or none). */
  lemma {:induction false} FallbackStopsAtFirstSuccess(
    ip: string, users: seq<string>, tryLogin: nat -> Attempt, k: nat, j: nat)
    requires k <= j <= |users|
    requires forall i :: k <= i < j ==> tryLogin(i).Raised?
    requires j < |users| ==> tryLogin(j).Completed?
    ensures |TryFrom(ip, users, tryLogin, k).failures| == j - k
    ensures forall i :: k <= i < j ==>
      TryFrom(ip, users, tryLogin, k).failures[i - k] == FailedAttempt(ip, users[i], tryLogin(i).error)
    ensures TryFrom(ip, users, tryLogin, k).output
         == if j < |users| then Some(tryLogin(j).output) else None
    decreases |users| - k
  {
    if k < j {
      FallbackStopsAtFirstSuccess(ip, users, tryLogin, k + 1, j);
    }
  }

  /** Every failure the loop records is one of the usernames tried, in order, so
      there are never more failures than usernames; it finishes without output
      exactly when every username failed. */
  lemma {:induction false} FallbackBounds(ip: string, users: seq<string>, tryLogin: nat -> Attempt, k: nat)
    requires k <= |users|
    ensures |TryFrom(ip, users, tryLogin, k).failures| <= |users| - k
    ensures TryFrom(ip, users, tryLogin, k).output.None?
        <==> forall i :: k <= i < |users| ==> tryLogin(i).Raised?
    ensures TryFrom(ip, users, tryLogin, k).output.None? ==> |TryFrom(ip, users, tryLogin, k).failures| == |users| - k
    decreases |users| - k
  {
    if k < |users| {
      FallbackBounds(ip, users, tryLogin, k + 1);
    }
  }

  /** A username listed twice gets two separate try-blocks: when the first
      one raises and the second completes, one failure naming that username
      is recorded and the second try's output is kept. */
  lemma RepeatedUsernameTriedAgain(ip: string, name: string, tryLogin: nat -> Attempt)
    requires tryLogin(0).Raised? && tryLogin(1).Completed?
    ensures TryFrom(ip, [name, name], tryLogin, 0)
         == Fallback([FailedAttempt(ip, name, tryLogin(0).error)], Some(tryLogin(1).output))
  {
    FallbackStopsAtFirstSuccess(ip, [name, name], tryLogin, 0, 1);
  }

  // ---------------------------------------------------------------- devices

  /** One device: the failures its usernames record, and what the script keeps
      of the completed try-block (`keep` applied to the device and its output). */
  datatype Device<T> = Device(failures: seq<FailedAttempt>, kept: Option<T>)

  function DeviceRun<T>(ip: string, users: seq<string>, tryLogin: nat -> Attempt, keep: (string, string) -> T): Device<T> {
    var f := TryFrom(ip, users, tryLogin, 0);
    Device(f.failures, if f.output.Some? then Some(keep(ip, f.output.value)) else None)
  }

  function Listed<T>(o: Option<T>): (r: seq<T>)
    ensures |r| <= 1 && (r == [] <==> o.None?)
    ensures o.Some? ==> r == [o.value]
  {
    if o.Some? then [o.value] else []
  }

  /** What the devices of the IP list from `d` on keep, in order, and the
      failures they record, in order; `world(d)` is the `d`-th device's
      try-block outcome by the position of the username tried. */
  datatype Sweep<T> = Sweep(kept: seq<T>, failed: seq<FailedAttempt>)

  function SweepFrom<T>(ips: seq<string>, users: seq<string>, world: nat -> nat -> Attempt,
                        keep: (string, string) -> T, d: nat): Sweep<T>
    requires d <= |ips|
    decreases |ips| - d
  {
    if d == |ips| then Sweep([], [])
    else
      var dev := DeviceRun(ips[d], users, world(d), keep);
      var rest := SweepFrom(ips, users, world, keep, d + 1);
      Sweep(Listed(dev.kept) + rest.kept, dev.failures + rest.failed)
  }

  /** There is at most one failure per device and username; a run where every
      username fails on every device records exactly that many. */
  lemma {:induction false} FailuresPerDevice<T>(ips: seq<string>, users: seq<string>, world: nat -> nat -> Attempt,
                                                keep: (string, string) -> T, d: nat)
    requires d <= |ips|
    ensures |SweepFrom(ips, users, world, keep, d).failed| <= (|ips| - d) * |users|
    ensures (forall e, i :: d <= e < |ips| && 0 <= i < |users| ==> world(e)(i).Raised?) ==>
      |SweepFrom(ips, users, world, keep, d).failed| == (|ips| - d) * |users|
    decreases |ips| - d
  {
    if d < |ips| {
      FallbackBounds(ips[d], users, world(d), 0);
      FailuresPerDevice(ips, users, world, keep, d + 1);
      assert (|ips| - d) * |users| == |users| + (|ips| - (d + 1)) * |users|;
    }
  }

  /** With at least one username, a run records no failure exactly when the
      first username completes on every device; then every device keeps its output. */
  lemma {:induction false} AllClearMeansFirstUsernameWorks<T>(ips: seq<string>, users: seq<string>,
                                                              world: nat -> nat -> Attempt,
                                                              keep: (string, string) -> T, d: nat)
    requires d <= |ips| && |users| >= 1
    ensures SweepFrom(ips, users, world, keep, d).failed == []
        <==> forall e :: d <= e < |ips| ==> world(e)(0).Completed?
    ensures SweepFrom(ips, users, world, keep, d).failed == [] ==>
      |SweepFrom(ips, users, world, keep, d).kept| == |ips| - d
    decreases |ips| - d
  {
    if d < |ips| {
      AllClearMeansFirstUsernameWorks(ips, users, world, keep, d + 1);
    }
  }

  /** The texts of the failed attempts, in order. */
  function FailureTexts(failed: seq<FailedAttempt>): (r: seq<string>)
    ensures |r| == |failed| && forall i :: 0 <= i < |r| ==> r[i] == FailureText(failed[i])
  {
    seq(|failed|, i requires 0 <= i < |failed| => FailureText(failed[i]))
  }
}
