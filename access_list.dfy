/** show_ip_access_list.py: for every device of to_do.txt, try the usernames in
    turn until one try-block completes; append the output of
    `show ip access-list | b VTY_Internal_ACL` to True.txt when it mentions the
    wildcard 0.0.1.255 and to False.txt otherwise; finally write every failed
    attempt to failed.txt. */
module AccessList {
  import opened Common
  import opened Credentials

  const Marker: string := "0.0.1.255"

  /** What a completed try-block appends: the device, its output, and whether
      the output mentions the marker (which picks the file). */
  datatype Classified = Classified(ip: string, output: string, isTrue: bool)

  function ClassifiedFor(ip: string, output: string): Classified {
    Classified(ip, output, Contains(output, Marker))
  }

  function ClassifiedPath(c: Classified): string {
    if c.isTrue then "True.txt" else "False.txt"
  }

  function ClassifiedText(c: Classified): string {
    "IP address: " + c.ip + "\n" + c.output + "\n"
  }

  /** The output goes to True.txt exactly when it mentions the marker. */
  lemma TrueFileMeansMarker(ip: string, output: string)
    ensures ClassifiedPath(ClassifiedFor(ip, output)) == "True.txt" <==> Contains(output, Marker)
  {
    if !Contains(output, Marker) {
      assert ClassifiedPath(ClassifiedFor(ip, output))[0] == 'F';
    }
  }

  /** The appended text starts by naming the device and holds the whole output. */
  lemma ClassifiedTextNamesDevice(c: Classified)
    ensures StartsWith(ClassifiedText(c), "IP address: " + c.ip)
    ensures Contains(ClassifiedText(c), c.output)
  {
    StartsWithConcat("IP address: " + c.ip, "\n" + c.output + "\n", "IP address: " + c.ip);
    assert ClassifiedText(c) == ("IP address: " + c.ip + "\n") + c.output + "\n";
    ContainsMiddle("IP address: " + c.ip + "\n", c.output, "\n");
  }

  /** `run_script_on_device`: `failed_attempts` comes in and goes out extended,
      and `kept` is what is appended to `ClassifiedPath(kept)`. */
  method RunScriptOnDevice(ip: string, users: seq<string>, tryLogin: nat -> Attempt,
                           failedAttempts: seq<FailedAttempt>)
    returns (failedAfter: seq<FailedAttempt>, kept: Option<Classified>)
    ensures failedAfter == failedAttempts + DeviceRun(ip, users, tryLogin, ClassifiedFor).failures
    ensures kept == DeviceRun(ip, users, tryLogin, ClassifiedFor).kept
  {
    ghost var whole := TryFrom(ip, users, tryLogin, 0);
    failedAfter := failedAttempts;
    var k := 0;
    while k < |users|
      invariant 0 <= k <= |users|
      invariant failedAttempts + whole.failures == failedAfter + TryFrom(ip, users, tryLogin, k).failures
      invariant whole.output == TryFrom(ip, users, tryLogin, k).output
      decreases |users| - k
    {
      match tryLogin(k)
      case Completed(output) =>
        var isTrue := Contains(output, Marker);
        assert failedAttempts + whole.failures == failedAfter + [];
        return failedAfter, Some(Classified(ip, output, isTrue));
      case Raised(e) =>
        ghost var rest := TryFrom(ip, users, tryLogin, k + 1);
        assert failedAfter + ([FailedAttempt(ip, users[k], e)] + rest.failures)
            == (failedAfter + [FailedAttempt(ip, users[k], e)]) + rest.failures;
        failedAfter := failedAfter + [FailedAttempt(ip, users[k], e)];
        k := k + 1;
    }
    assert failedAttempts + whole.failures == failedAfter + [];
    return failedAfter, None;
  }

  datatype Report =
    | MissingToDo
    | Report(kept: seq<Classified>, failed: seq<FailedAttempt>, failedFile: string)

  /** The text of failed.txt: one message and a newline per failed attempt. */
  function FailedFile(failed: seq<FailedAttempt>): string {
    Lines(FailureTexts(failed))
  }

  /** failed.txt is always written; it is empty exactly when no attempt failed. */
  lemma FailedFileEmptyIffNoFailure(failed: seq<FailedAttempt>)
    ensures FailedFile(failed) == [] <==> failed == []
  {
    if failed != [] {
      assert |FailedFile(failed)| >= 1;
    }
  }

  /** The `__main__` block. `toDo` is the lines of to_do.txt (`None` when it does
      not exist, which ends the script with an exception before anything else),
      `usernames` the text typed at the prompt, `world(d)` the try-block
      outcomes of the `d`-th device by the position of the username tried. */
  method AccessListScript(toDo: Option<seq<string>>, usernames: string, world: nat -> nat -> Attempt)
    returns (r: Report)
    ensures toDo.None? ==> r == MissingToDo
    ensures toDo.Some? ==>
      var s := SweepFrom(StripAll(toDo.value), Split(usernames, ','), world, ClassifiedFor, 0);
      r == Report(s.kept, s.failed, FailedFile(s.failed))
  {
    if toDo.None? {
      return MissingToDo;
    }
    var s := SweepDevices(StripAll(toDo.value), Split(usernames, ','), world);
    r := Report(s.kept, s.failed, FailedFile(s.failed));
  }

  /** The loop of `__main__` over the IP list. */
  method SweepDevices(ips: seq<string>, users: seq<string>, world: nat -> nat -> Attempt)
    returns (s: Sweep<Classified>)
    ensures s == SweepFrom(ips, users, world, ClassifiedFor, 0)
  {
    ghost var whole := SweepFrom(ips, users, world, ClassifiedFor, 0);
    var kept: seq<Classified> := [];
    var failed: seq<FailedAttempt> := [];
    var d := 0;
    while d < |ips|
      invariant 0 <= d <= |ips|
      invariant whole.kept == kept + SweepFrom(ips, users, world, ClassifiedFor, d).kept
      invariant whole.failed == failed + SweepFrom(ips, users, world, ClassifiedFor, d).failed
      decreases |ips| - d
    {
      kept, failed := NextDevice(ips, users, world, d, kept, failed);
      d := d + 1;
    }
    assert kept + [] == kept && failed + [] == failed;
    s := Sweep(kept, failed);
  }

  /** One turn of the loop of `__main__`: device `d` adds its output and its failures. */
  method NextDevice(ips: seq<string>, users: seq<string>, world: nat -> nat -> Attempt, d: nat,
                    kept: seq<Classified>, failed: seq<FailedAttempt>)
    returns (kept': seq<Classified>, failed': seq<FailedAttempt>)
    requires d < |ips|
    ensures kept' + SweepFrom(ips, users, world, ClassifiedFor, d + 1).kept
         == kept + SweepFrom(ips, users, world, ClassifiedFor, d).kept
    ensures failed' + SweepFrom(ips, users, world, ClassifiedFor, d + 1).failed
         == failed + SweepFrom(ips, users, world, ClassifiedFor, d).failed
  {
    ghost var rest := SweepFrom(ips, users, world, ClassifiedFor, d + 1);
    ghost var dev := DeviceRun(ips[d], users, world(d), ClassifiedFor);
    var out;
    failed', out := RunScriptOnDevice(ips[d], users, world(d), failed);
    assert failed + (dev.failures + rest.failed) == failed' + rest.failed;
    kept' := kept + Listed(out);
    assert kept + (Listed(out) + rest.kept) == kept' + rest.kept;
  }
}
