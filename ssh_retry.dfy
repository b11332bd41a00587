/** ssh_try_multiple.py: connect to every address of the list, retrying a
    failed connect up to three attempts in all with a sleep after every
    failure, and write one result line per address. */
module SshRetry {
  import opened Common

  /** How one `client.connect` (and the `close` after it) ends. */
  datatype ConnectTry = Connects | Fails(error: string)

  const MaxAttempts: nat := 3

  /** The default `delay` of `ssh_connect`, in seconds. */
  const Delay: nat := 5

  /** What `ssh_connect` reports: success on a given attempt, or giving up
      after a number of attempts with the error of the last one. */
  datatype Retry = Success(attempt: nat) | GaveUp(attempts: nat, error: string)

  /** The retry loop from a count of `attempts` failures so far; `tryConnect(a)`
      is how the attempt with `a` earlier failures ends. */
  function RetryFrom(tryConnect: nat -> ConnectTry, attempts: nat): Retry
    requires attempts < MaxAttempts
    decreases MaxAttempts - attempts
  {
    match tryConnect(attempts)
    case Connects => Success(attempts + 1)
    case Fails(e) =>
      if attempts + 1 > 2 then GaveUp(attempts + 1, e) else RetryFrom(tryConnect, attempts + 1)
  }

  function ResultText(ip: string, r: Retry): string {
    match r
    case Success(k) => "Success on " + ip + (" after " + NatToString(k) + " attempts.")
    case GaveUp(n, e) => "Failed on " + ip + (" after " + NatToString(n) + " attempts. Error: " + e)
  }

  /** `ssh_connect`: `sleeps` counts the `time.sleep(delay)` calls, one after
      every failed attempt, the third included. */
  method SshConnect(tryConnect: nat -> ConnectTry) returns (r: Retry, sleeps: nat)
    ensures r == RetryFrom(tryConnect, 0)
    ensures r.Success? ==> sleeps == r.attempt - 1
    ensures r.GaveUp? ==> sleeps == MaxAttempts
  {
    var attempts := 0;
    sleeps := 0;
    while true
      invariant attempts < MaxAttempts && sleeps == attempts
      invariant RetryFrom(tryConnect, attempts) == RetryFrom(tryConnect, 0)
      decreases MaxAttempts - attempts
    {
      match tryConnect(attempts)
      case Connects =>
        return Success(attempts + 1), sleeps;
      case Fails(e) =>
        attempts := attempts + 1;
        sleeps := sleeps + 1;
        if attempts > 2 {
          return GaveUp(attempts, e), sleeps;
        }
    }
  }

  /** The loop makes at most three attempts: it succeeds on attempt `k` exactly
      when the `k - 1` attempts before it failed and attempt `k` connected, and
      it gives up only after three failures, with the third one's error. */
  lemma RetryMeaning(tryConnect: nat -> ConnectTry)
    ensures RetryFrom(tryConnect, 0).Success? ==>
      var k := RetryFrom(tryConnect, 0).attempt;
      1 <= k <= MaxAttempts && tryConnect(k - 1).Connects? && forall a :: 0 <= a < k - 1 ==> tryConnect(a).Fails?
    ensures RetryFrom(tryConnect, 0).GaveUp? <==> forall a :: 0 <= a < MaxAttempts ==> tryConnect(a).Fails?
    ensures RetryFrom(tryConnect, 0).GaveUp? ==>
      RetryFrom(tryConnect, 0) == GaveUp(MaxAttempts, tryConnect(2).error)
  {
  }

  /** The first attempt that connects decides the result. */
  lemma {:induction false} FirstConnectWins(tryConnect: nat -> ConnectTry, k: nat)
    requires 1 <= k <= MaxAttempts
    requires tryConnect(k - 1).Connects? && forall a :: 0 <= a < k - 1 ==> tryConnect(a).Fails?
    ensures RetryFrom(tryConnect, 0) == Success(k)
  {
    if k >= 2 {
      assert tryConnect(0).Fails?;
      if k == 3 { assert tryConnect(1).Fails?; }
    }
  }

  /** The result line tells success from failure and names the address. */
  lemma ResultTextNamesAddress(ip: string, r: Retry)
    ensures StartsWith(ResultText(ip, r), "Success on ") <==> r.Success?
    ensures Contains(ResultText(ip, r), ip)
  {
    match r
    case Success(k) =>
      var rest := " after " + NatToString(k) + " attempts.";
      ContainsMiddle("Success on ", ip, rest);
      StartsWithConcat("Success on ", ip, "Success on ");
      StartsWithConcat("Success on " + ip, rest, "Success on ");
    case GaveUp(n, e) =>
      var rest := " after " + NatToString(n) + " attempts. Error: " + e;
      ContainsMiddle("Failed on ", ip, rest);
      assert ResultText(ip, r)[0] == 'F';
  }

  /** One entry of `results`: the address and how its retry loop ended; its
      text is `ResultText`. */
  datatype Result = Result(ip: string, retry: Retry)

  /** The loop of `main` over the addresses, one result each, in order;
      `world(d)` is the connect outcomes of the `d`-th address by attempt. */
  method RetryEach(ips: seq<string>, world: nat -> nat -> ConnectTry) returns (results: seq<Result>)
    ensures |results| == |ips|
    ensures forall d :: 0 <= d < |ips| ==> results[d] == Result(ips[d], RetryFrom(world(d), 0))
  {
    results := [];
    var d := 0;
    while d < |ips|
      invariant 0 <= d <= |ips|
      invariant |results| == d
      invariant forall j :: 0 <= j < d ==> results[j] == Result(ips[j], RetryFrom(world(j), 0))
      decreases |ips| - d
    {
      var r, _ := SshConnect(world(d));
      results := results + [Result(ips[d], r)];
      d := d + 1;
    }
  }

  /** `main`: the stripped lines of ip_addresses.txt in, one result per line
      out, in order. */
  method RetryAll(lines: seq<string>, world: nat -> nat -> ConnectTry) returns (results: seq<Result>)
    ensures |results| == |lines|
    ensures forall d :: 0 <= d < |lines| ==> results[d] == Result(StripAll(lines)[d], RetryFrom(world(d), 0))
  {
    results := RetryEach(StripAll(lines), world);
  }

  /** results.txt: every result line followed by a newline. */
  function ResultsFile(results: seq<Result>): string {
    Lines(seq(|results|, i requires 0 <= i < |results| => ResultText(results[i].ip, results[i].retry)))
  }
}
