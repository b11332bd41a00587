/** Cisco_ACL_Syntax_Logic.py: for every device of the IP list, try the
    usernames in turn until one try-block completes; classify the output of
    `show ip access-list | b SNMP_ACL` by whether it holds any of the search
    strings, append it to the "found" or "not found" file, and finally write the
    failed attempts to a log and print a summary. */
module AclSyntax {
  import opened Common
  import opened Credentials

  const SearchStrings: seq<string> := ["10.189.", "192.168.", "172.16.", "10.10.10."]

  const OutputDir: string := "SNMP_Output_Files"

  /** A text and the file it goes to. */
  datatype FileText = FileText(path: string, text: string)

  predicate ContainsAny(output: string, needles: seq<string>) {
    exists i :: 0 <= i < |needles| && Contains(output, needles[i])
  }

  /** The `found_any_string` loop: stops at the first search string present. */
  method FoundAnyString(output: string, needles: seq<string>) returns (found: bool)
    ensures found <==> ContainsAny(output, needles)
  {
    var i := 0;
    while i < |needles|
      invariant 0 <= i <= |needles|
      invariant forall j :: 0 <= j < i ==> !Contains(output, needles[j])
    {
      if Contains(output, needles[i]) {
        return true;
      }
      i := i + 1;
    }
    return false;
  }

  /** What a completed try-block appends: the device, its output, and whether
      the output holds a search string (which picks the file). */
  datatype SavedOutput = SavedOutput(ip: string, output: string, found: bool)

  function SavedFor(ip: string, output: string): SavedOutput {
    SavedOutput(ip, output, ContainsAny(output, SearchStrings))
  }

  function SaveFileName(found: bool, timestamp: string): string {
    if found then "SNMP_Found_" + timestamp + ".txt" else "SNMP_NotFound_" + timestamp + ".txt"
  }

  /** The file a saved output is appended to. */
  function SavedPath(s: SavedOutput, timestamp: string): string {
    OutputDir + "/" + SaveFileName(s.found, timestamp)
  }

  /** The text appended: a header naming the device, then the output. */
  function SavedText(s: SavedOutput): string {
    "--- Device IP: " + s.ip + " ---\n" + s.output + "\n\n"
  }

  /** The output lands in the "found" file exactly when it holds a search string. */
  lemma SavedFileTellsFound(ip: string, output: string, timestamp: string)
    ensures (SavedPath(SavedFor(ip, output), timestamp) == OutputDir + "/SNMP_Found_" + timestamp + ".txt")
        <==> ContainsAny(output, SearchStrings)
  {
    var found := OutputDir + "/SNMP_Found_" + timestamp + ".txt";
    var notFound := OutputDir + "/SNMP_NotFound_" + timestamp + ".txt";
    if !ContainsAny(output, SearchStrings) {
      assert found[|OutputDir| + 6] == 'F' && notFound[|OutputDir| + 6] == 'N';
    }
  }

  /** `run_script_on_device`: `failed_attempts` comes in and goes out extended;
      `saved` is what is appended to `SavedPath(saved, timestamp)`, and
      `allFailed` is whether the `else` branch of the username loop runs. */
  method RunScriptOnDevice(ip: string, users: seq<string>, tryLogin: nat -> Attempt,
                           failedAttempts: seq<FailedAttempt>)
    returns (failedAfter: seq<FailedAttempt>, saved: Option<SavedOutput>, allFailed: bool)
    ensures failedAfter == failedAttempts + DeviceRun(ip, users, tryLogin, SavedFor).failures
    ensures saved == DeviceRun(ip, users, tryLogin, SavedFor).kept
    ensures allFailed <==> forall i :: 0 <= i < |users| ==> tryLogin(i).Raised?
  {
    ghost var whole := TryFrom(ip, users, tryLogin, 0);
    FallbackBounds(ip, users, tryLogin, 0);
    failedAfter := failedAttempts;
    var k := 0;
    while k < |users|
      invariant 0 <= k <= |users|
      invariant failedAttempts + whole.failures == failedAfter + TryFrom(ip, users, tryLogin, k).failures
      invariant whole.output == TryFrom(ip, users, tryLogin, k).output
      invariant forall i :: 0 <= i < k ==> tryLogin(i).Raised?
      decreases |users| - k
    {
      match tryLogin(k)
      case Completed(output) =>
        var found := FoundAnyString(output, SearchStrings);
        saved := Some(SavedOutput(ip, output, found));
        assert failedAttempts + whole.failures == failedAfter + [];
        return failedAfter, saved, false;
      case Raised(e) =>
        ghost var rest := TryFrom(ip, users, tryLogin, k + 1);
        assert failedAfter + ([FailedAttempt(ip, users[k], e)] + rest.failures)
            == (failedAfter + [FailedAttempt(ip, users[k], e)]) + rest.failures;
        failedAfter := failedAfter + [FailedAttempt(ip, users[k], e)];
        k := k + 1;
    }
    assert failedAttempts + whole.failures == failedAfter + [];
    return failedAfter, None, true;
  }

  /** The failed-connections log, written only when some attempt failed. */
  function FailedLog(failed: seq<FailedAttempt>, timestamp: string): Option<FileText> {
    if failed == [] then None
    else Some(FileText(FailedLogPath(timestamp),
                       "--- Failed Connection Attempts ---\n" + Lines(FailureTexts(failed))))
  }

  function FailedLogPath(timestamp: string): string {
    OutputDir + "/" + timestamp + "_failed_connections.txt"
  }

  function SummaryLine(failed: seq<FailedAttempt>, timestamp: string): string {
    if failed == [] then "\nSummary: All devices processed successfully with no connection failures."
    else "\nSummary: " + NatToString(|failed|) + (" device(s) failed to connect. See '" + FailedLogPath(timestamp) + "' for details.")
  }

  /** How the script ends: the IP file is missing; opening the failure log
      raised `FileNotFoundError` because SNMP_Output_Files does not exist, so
      neither the log nor the summary appears; or the log (if any) and the
      summary are written. */
  datatype Report =
    | MissingIpFile
    | LogCrashed(saved: seq<SavedOutput>, failed: seq<FailedAttempt>)
    | Report(saved: seq<SavedOutput>, failed: seq<FailedAttempt>, failedLog: Option<FileText>, summary: string)

  /** The end of `__main__` after the sweep, where `dirExists` is whether
      SNMP_Output_Files exists when the log is opened. */
  function Finish(s: Sweep<SavedOutput>, dirExists: bool, timestamp: string): Report {
    if s.failed != [] && !dirExists then LogCrashed(s.kept, s.failed)
    else Report(s.kept, s.failed, FailedLog(s.failed, timestamp), SummaryLine(s.failed, timestamp))
  }

  /** The `__main__` block. `ipFile` is the lines of BL_2960.txt (`None` when it
      does not exist), `usernames` the text typed at the prompt, `world(d)`
      the try-block outcomes of the `d`-th device by the position of the
      username tried, and `dirExisted` whether SNMP_Output_Files existed
      before the run. A completed try-block has created it. */
  method AclScript(ipFile: Option<seq<string>>, usernames: string, world: nat -> nat -> Attempt,
                   dirExisted: bool, timestamp: string)
    returns (r: Report)
    ensures ipFile.None? ==> r == MissingIpFile
    ensures ipFile.Some? ==>
      var s := SweepFrom(StripAll(ipFile.value), Split(usernames, ','), world, SavedFor, 0);
      r == Finish(s, dirExisted || s.kept != [], timestamp)
  {
    if ipFile.None? {
      return MissingIpFile;
    }
    var s := SweepDevices(StripAll(ipFile.value), Split(usernames, ','), world);
    if s.failed != [] && !(dirExisted || s.kept != []) {
      return LogCrashed(s.kept, s.failed);
    }
    r := Report(s.kept, s.failed, FailedLog(s.failed, timestamp), SummaryLine(s.failed, timestamp));
  }

  /** The loop of `__main__` over the IP list. */
  method SweepDevices(ips: seq<string>, users: seq<string>, world: nat -> nat -> Attempt)
    returns (s: Sweep<SavedOutput>)
    ensures s == SweepFrom(ips, users, world, SavedFor, 0)
  {
    ghost var whole := SweepFrom(ips, users, world, SavedFor, 0);
    var saved: seq<SavedOutput> := [];
    var failed: seq<FailedAttempt> := [];
    var d := 0;
    while d < |ips|
      invariant 0 <= d <= |ips|
      invariant whole.kept == saved + SweepFrom(ips, users, world, SavedFor, d).kept
      invariant whole.failed == failed + SweepFrom(ips, users, world, SavedFor, d).failed
      decreases |ips| - d
    {
      saved, failed := NextDevice(ips, users, world, d, saved, failed);
      d := d + 1;
    }
    assert saved + [] == saved && failed + [] == failed;
    s := Sweep(saved, failed);
  }

  /** One turn of the loop of `__main__`: device `d` adds its output and its failures. */
  method NextDevice(ips: seq<string>, users: seq<string>, world: nat -> nat -> Attempt, d: nat,
                    saved: seq<SavedOutput>, failed: seq<FailedAttempt>)
    returns (saved': seq<SavedOutput>, failed': seq<FailedAttempt>)
    requires d < |ips|
    ensures saved' + SweepFrom(ips, users, world, SavedFor, d + 1).kept
         == saved + SweepFrom(ips, users, world, SavedFor, d).kept
    ensures failed' + SweepFrom(ips, users, world, SavedFor, d + 1).failed
         == failed + SweepFrom(ips, users, world, SavedFor, d).failed
  {
    ghost var rest := SweepFrom(ips, users, world, SavedFor, d + 1);
    ghost var dev := DeviceRun(ips[d], users, world(d), SavedFor);
    var out, allFailed;
    failed', out, allFailed := RunScriptOnDevice(ips[d], users, world(d), failed);
    assert failed + (dev.failures + rest.failed) == failed' + rest.failed;
    saved' := saved + Listed(out);
    assert saved + (Listed(out) + rest.kept) == saved' + rest.kept;
  }

  /** The run crashes before the log and the summary exactly when some
      attempt failed and SNMP_Output_Files is missing. Otherwise the log is
      written exactly when some attempt failed, and the summary then gives the
      number of failed attempts in decimal. */
  lemma SummaryReportsCount(s: Sweep<SavedOutput>, dirExists: bool, timestamp: string)
    ensures Finish(s, dirExists, timestamp).LogCrashed? <==> s.failed != [] && !dirExists
    ensures Finish(s, dirExists, timestamp).Report? ==>
      && (Finish(s, dirExists, timestamp).failedLog.None? <==> s.failed == [])
      && (s.failed != [] ==> Contains(Finish(s, dirExists, timestamp).summary, NatToString(|s.failed|)))
  {
    if s.failed != [] && dirExists {
      var n := NatToString(|s.failed|);
      var tail := " device(s) failed to connect. See '" + FailedLogPath(timestamp) + "' for details.";
      ContainsMiddle("\nSummary: ", n, tail);
    }
  }

  /** A first run against devices that all refuse every username: nothing
      creates SNMP_Output_Files, so opening the log crashes the script. */
  lemma AllRefusedFirstRunCrashes(ips: seq<string>, users: seq<string>, world: nat -> nat -> Attempt, timestamp: string)
    requires |ips| >= 1 && |users| >= 1
    requires forall d, i :: 0 <= d < |ips| && 0 <= i < |users| ==> world(d)(i).Raised?
    ensures var s := SweepFrom(ips, users, world, SavedFor, 0);
      Finish(s, false || s.kept != [], timestamp).LogCrashed?
  {
    FailuresPerDevice(ips, users, world, SavedFor, 0);
    NothingKept(ips, users, world, 0);
  }

  lemma {:induction false} NothingKept(ips: seq<string>, users: seq<string>, world: nat -> nat -> Attempt, d: nat)
    requires d <= |ips|
    requires forall e, i :: d <= e < |ips| && 0 <= i < |users| ==> world(e)(i).Raised?
    ensures SweepFrom(ips, users, world, SavedFor, d).kept == []
    decreases |ips| - d
  {
    if d < |ips| {
      FallbackBounds(ips[d], users, world(d), 0);
      NothingKept(ips, users, world, d + 1);
    }
  }
}
