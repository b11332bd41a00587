/** SW_Config_1.6.py: an interactive shell session on a switch. After each command
    the script polls the channel, accumulating received text, until the last line
    of what it received looks like a CLI prompt; the per-command output is framed
    into one transcript, and `main` sends one email per switch.

    The paramiko channel is the class `Shell`: the remote side is a script of
    polls, each one either nothing ready, a chunk of text, or an exception. */
module SwConfig16 {
  import opened Common

  // ---------------------------------------------------------------- the prompt test

  /** A character of `[\w.-]`. */
  predicate IsPromptNameChar(c: char) { IsWordChar(c) || c == '.' || c == '-' }

  predicate IsPromptMark(c: char) { c == '>' || c == '#' }

  /** Where the last line of `s` starts: just after its last newline. */
  function LineStart(s: string): (i: nat)
    ensures i <= |s| && (i == 0 || s[i - 1] == '\n')
    ensures forall k :: i <= k < |s| ==> s[k] != '\n'
  {
    if s == [] then 0
    else if s[|s| - 1] == '\n' then |s|
    else
      var i := LineStart(s[..|s| - 1]);
      assert forall k :: i <= k < |s| - 1 ==> s[..|s| - 1][k] == s[k];
      i
  }

  /** Only one position starts a line with no newline after it. */
  lemma LineStartUnique(s: string, j: nat)
    requires j <= |s| && (j == 0 || s[j - 1] == '\n')
    requires forall k :: j <= k < |s| ==> s[k] != '\n'
    ensures LineStart(s) == j
  {
  }

  /** `buffer.split('\n')[-1]`: the text after the last newline. */
  function LastSegment(buffer: string): string {
    buffer[LineStart(buffer)..]
  }

  /** The direct definition is the last piece of `split('\n')`. */
  lemma {:induction false} LastSegmentIsSplit(buffer: string)
    ensures LastSegment(buffer) == Split(buffer, '\n')[|Split(buffer, '\n')| - 1]
    decreases |buffer|
  {
    if '\n' in buffer {
      var i := IndexOf(buffer, '\n');
      var a, rest := buffer[..i], buffer[i + 1..];
      assert Split(buffer, '\n') == [a] + Split(rest, '\n') by {
        assert buffer == a + ['\n'] + rest;
        SplitStep(a, rest, '\n');
      }
      assert LastSegment(buffer) == LastSegment(rest) by {
        LastSegmentAfter(buffer, i);
      }
      var parts := Split(rest, '\n');
      assert ([a] + parts)[|parts|] == parts[|parts| - 1] by {
        LastOfCons(a, parts);
      }
      LastSegmentIsSplit(rest);
      assert LastSegment(rest) == parts[|parts| - 1];
    } else {
      SingleLine(buffer);
    }
  }

  /** Text without a newline is its own last line and its only piece. */
  lemma SingleLine(buffer: string)
    requires '\n' !in buffer
    ensures LastSegment(buffer) == buffer && Split(buffer, '\n') == [buffer]
  {
    LineStartUnique(buffer, 0);
    assert buffer[0..] == buffer;
  }

  lemma LastOfCons(a: string, parts: seq<string>)
    requires parts != []
    ensures ([a] + parts)[|parts|] == parts[|parts| - 1]
  {
  }

  /** The last line of a text is the last line of what follows any of its
      newlines. */
  lemma LastSegmentAfter(buffer: string, i: nat)
    requires i < |buffer| && buffer[i] == '\n'
    ensures LastSegment(buffer) == LastSegment(buffer[i + 1..])
  {
    var rest := buffer[i + 1..];
    var j := i + 1 + LineStart(rest);
    assert forall k :: j <= k < |buffer| ==> buffer[k] == rest[k - i - 1];
    assert j == i + 1 || buffer[j - 1] == rest[LineStart(rest) - 1];
    LineStartUnique(buffer, j);
    assert buffer[j..] == rest[LineStart(rest)..];
  }

  /** A newline ends the last line: what follows it is empty. */
  lemma LastSegmentAfterNewline(s: string)
    ensures LastSegment(s + "\n") == []
  {
    LineStartUnique(s + "\n", |s| + 1);
  }

  /** Any other character extends the last line. */
  lemma LastSegmentSnoc(s: string, c: char)
    requires c != '\n'
    ensures LastSegment(s + [c]) == LastSegment(s) + [c]
  {
    var t := s + [c];
    var i := LineStart(s);
    assert forall k :: i <= k < |t| - 1 ==> t[k] == s[k];
    if i > 0 {
      assert t[i - 1] == s[i - 1];
    }
    LineStartUnique(t, i);
    assert t[i..] == s[i..] + [c];
  }

  /** The regex `[\w.-]+[>#]\s*$` matches `line` with its `[>#]` at index `i`. */
  predicate PromptMatchAt(line: string, i: int) {
    1 <= i < |line| && IsPromptMark(line[i]) && IsPromptNameChar(line[i - 1]) && AllSpace(line[i + 1..])
  }

  /** `re.search(r"[\w.-]+[>#]\s*$", line)` succeeds. */
  predicate MatchesPrompt(line: string) {
    exists i | 1 <= i < |line| :: PromptMatchAt(line, i)
  }

  /** The test the polling loop runs, scanning back from the end of the buffer:
      past trailing whitespace, but never past a newline, to `>` or `#` with a
      name character before it. */
  predicate AtPrompt(buffer: string)
    decreases |buffer|
  {
    if buffer == [] then false
    else
      var c := buffer[|buffer| - 1];
      if c == '\n' then false
      else if IsSpace(c) then AtPrompt(buffer[..|buffer| - 1])
      else IsPromptMark(c) && |buffer| >= 2 && IsPromptNameChar(buffer[|buffer| - 2])
  }

  /** The loop's test is exactly the regex search on the buffer's last line. */
  lemma {:induction false} AtPromptIsRegexSearch(buffer: string)
    ensures AtPrompt(buffer) <==> MatchesPrompt(LastSegment(buffer))
    decreases |buffer|
  {
    if buffer == [] {
      assert LastSegment(buffer) == [];
    } else {
      var init := buffer[..|buffer| - 1];
      var c := buffer[|buffer| - 1];
      assert buffer == init + [c];
      if c == '\n' {
        LastSegmentAfterNewline(init);
        assert LastSegment(buffer) == [];
      } else if IsSpace(c) {
        AtPromptIsRegexSearch(init);
        AtPromptSnoc(init, c);
      } else {
        AtPromptSnoc(init, c);
      }
    }
  }

  /** One step of the scan back from the end of the buffer. */
  lemma AtPromptSnoc(init: string, c: char)
    requires c != '\n'
    requires IsSpace(c) ==> (AtPrompt(init) <==> MatchesPrompt(LastSegment(init)))
    ensures AtPrompt(init + [c]) <==> MatchesPrompt(LastSegment(init + [c]))
  {
    LastSegmentSnoc(init, c);
    if IsSpace(c) {
      AtPromptSpace(init, c);
    } else {
      AtPromptMark(init, c);
    }
  }

  lemma AtPromptSpace(init: string, c: char)
    requires c != '\n' && IsSpace(c)
    requires AtPrompt(init) <==> MatchesPrompt(LastSegment(init))
    requires LastSegment(init + [c]) == LastSegment(init) + [c]
    ensures AtPrompt(init + [c]) <==> MatchesPrompt(LastSegment(init + [c]))
  {
    var buffer := init + [c];
    assert buffer[..|buffer| - 1] == init && buffer[|buffer| - 1] == c;
    assert AtPrompt(buffer) == AtPrompt(init);
    MatchesPromptSnoc(LastSegment(init), c);
  }

  lemma AtPromptMark(init: string, c: char)
    requires c != '\n' && !IsSpace(c)
    requires LastSegment(init + [c]) == LastSegment(init) + [c]
    ensures AtPrompt(init + [c]) <==> MatchesPrompt(LastSegment(init + [c]))
  {
    var buffer := init + [c];
    var line := LastSegment(init);
    assert buffer[..|buffer| - 1] == init && buffer[|buffer| - 1] == c;
    assert AtPrompt(buffer) == (IsPromptMark(c) && |buffer| >= 2 && IsPromptNameChar(buffer[|buffer| - 2]));
    LastSegmentEnd(init);
    MatchesPromptSnoc(line, c);
    if |init| >= 1 {
      assert buffer[|buffer| - 2] == init[|init| - 1];
    }
  }

  /** The last line of a text ends with the text's last character, unless that
      character is a newline or the text is empty. */
  lemma LastSegmentEnd(s: string)
    ensures |LastSegment(s)| >= 1 <==> s != [] && s[|s| - 1] != '\n'
    ensures |LastSegment(s)| >= 1 ==> LastSegment(s)[|LastSegment(s)| - 1] == s[|s| - 1]
  {
    if s == [] {
      assert LastSegment(s) == [];
    } else {
      var init := s[..|s| - 1];
      var d := s[|s| - 1];
      assert s == init + [d];
      if d == '\n' {
        LastSegmentAfterNewline(init);
      } else {
        LastSegmentSnoc(init, d);
      }
    }
  }

  /** Appending one character to a line: whitespace leaves the match as it was;
      anything else matches exactly when it is `>` or `#` after a name character. */
  lemma MatchesPromptSnoc(line: string, c: char)
    ensures IsSpace(c) ==> (MatchesPrompt(line + [c]) <==> MatchesPrompt(line))
    ensures !IsSpace(c) ==>
      (MatchesPrompt(line + [c]) <==> IsPromptMark(c) && |line| >= 1 && IsPromptNameChar(line[|line| - 1]))
  {
    var l := line + [c];
    if MatchesPrompt(l) {
      var i :| 1 <= i < |l| && PromptMatchAt(l, i);
      assert l[|line|] == c;
      if IsSpace(c) {
        assert i != |line|;
        assert l[i + 1..] == line[i + 1..] + [c];
        assert line[i] == l[i] && line[i - 1] == l[i - 1];
        AllSpaceConcat(line[i + 1..], [c]);
        assert PromptMatchAt(line, i);
      } else {
        assert !(i < |line|);
      }
    }
    if IsSpace(c) && MatchesPrompt(line) {
      var i :| 1 <= i < |line| && PromptMatchAt(line, i);
      assert l[i + 1..] == line[i + 1..] + [c];
      AllSpaceConcat(line[i + 1..], [c]);
      assert PromptMatchAt(l, i);
    }
    if !IsSpace(c) && IsPromptMark(c) && |line| >= 1 && IsPromptNameChar(line[|line| - 1]) {
      assert PromptMatchAt(l, |line|);
    }
  }

  /** Text received so far that ends in a newline has an empty last line, which
      is never taken for a prompt: polling goes on. */
  lemma TrailingNewlineIsNoPrompt(buffer: string)
    ensures LastSegment(buffer + "\n") == ""
    ensures !MatchesPrompt(LastSegment(buffer + "\n"))
  {
    LastSegmentAfterNewline(buffer);
  }

  /** A bare `#` and a configuration-mode prompt, where `)` precedes `#`, are not
      taken for prompts; `Switch#` and `Switch> ` are. */
  lemma PromptExamples()
    ensures !MatchesPrompt(LastSegment("#"))
    ensures !MatchesPrompt(LastSegment("Switch(config)#"))
    ensures MatchesPrompt(LastSegment("Switch#"))
    ensures MatchesPrompt(LastSegment("Switch> "))
  {
    LineStartUnique("#", 0);
    LineStartUnique("Switch(config)#", 0);
    LineStartUnique("Switch#", 0);
    LineStartUnique("Switch> ", 0);
    assert "Switch(config)#"[0..] == "Switch(config)#";
    assert PromptMatchAt("Switch#", 6);
    assert PromptMatchAt("Switch> ", 6);
  }

  // ---------------------------------------------------------------- the channel

  /** Why paramiko gave up: the three `except` clauses of `ssh_to_switch`. */
  datatype Failure = AuthFailure | SshFailure(detail: string) | OtherFailure(detail: string)

  /** One turn of the polling loop: `recv_ready()` false, one `recv(1024)`'s
      text, or an exception from the channel. */
  datatype Poll = Idle | Data(text: string) | Fault(error: Failure)

  class Shell {
    /** What the remote side will deliver, poll by poll. */
    var polls: seq<Poll>
    /** Everything `channel.send` wrote, in order. */
    var sent: seq<string>

    constructor (script: seq<Poll>)
      ensures polls == script && sent == []
    {
      polls := script;
      sent := [];
    }

    method Send(text: string)
      modifies this
      ensures sent == old(sent) + [text] && polls == old(polls)
    {
      sent := sent + [text];
    }

    /** One poll; `None` once the remote side has nothing more scripted. */
    method NextPoll() returns (p: Option<Poll>)
      modifies this
      ensures old(polls) == [] ==> p == None && polls == []
      ensures old(polls) != [] ==> p == Some(old(polls)[0]) && polls == old(polls)[1..]
      ensures sent == old(sent)
    {
      if polls == [] {
        p := None;
      } else {
        p := Some(polls[0]);
        polls := polls[1..];
      }
    }
  }

  // ---------------------------------------------------------------- wait_for_prompt

  /** How `wait_for_prompt` ends: at a prompt, with an exception, or never (the
      script ran out while the source would keep polling). */
  datatype Wait = Settled(buffer: string) | Raised(error: Failure) | Stalled(buffer: string)

  /** The outcome of `wait_for_prompt` continuing from `buffer`, and the polls
      it leaves unread. */
  function WaitOutcome(polls: seq<Poll>, buffer: string): (Wait, seq<Poll>)
    decreases |polls|
  {
    if AtPrompt(buffer) then (Settled(buffer), polls)
    else if polls == [] then (Stalled(buffer), [])
    else match polls[0]
      case Idle => WaitOutcome(polls[1..], buffer)
      case Data(t) => WaitOutcome(polls[1..], buffer + t)
      case Fault(e) => (Raised(e), polls[1..])
  }

  /** The text of the chunks among `polls`, in order. */
  function Received(polls: seq<Poll>): string {
    if polls == [] then ""
    else (if polls[0].Data? then polls[0].text else "") + Received(polls[1..])
  }

  /** The loop returns only at a prompt. */
  lemma {:induction false} WaitSettlesAtPrompt(polls: seq<Poll>, buffer: string)
    ensures WaitOutcome(polls, buffer).0.Settled? ==> MatchesPrompt(LastSegment(WaitOutcome(polls, buffer).0.buffer))
    decreases |polls|
  {
    if AtPrompt(buffer) {
      AtPromptIsRegexSearch(buffer);
    } else if polls != [] {
      match polls[0]
      case Idle => WaitSettlesAtPrompt(polls[1..], buffer);
      case Data(t) => WaitSettlesAtPrompt(polls[1..], buffer + t);
      case Fault(e) =>
    }
  }

  /** Unless an exception ends it, the loop's buffer is the text it started from
      followed by every chunk it read, and the chunks it did not read are left. */
  lemma {:induction false} WaitKeepsChunks(polls: seq<Poll>, buffer: string)
    ensures !WaitOutcome(polls, buffer).0.Raised? ==>
      buffer + Received(polls) == WaitOutcome(polls, buffer).0.buffer + Received(WaitOutcome(polls, buffer).1)
    decreases |polls|
  {
    if !AtPrompt(buffer) && polls != [] {
      match polls[0]
      case Idle =>
        assert WaitOutcome(polls, buffer) == WaitOutcome(polls[1..], buffer);
        assert Received(polls) == Received(polls[1..]);
        WaitKeepsChunks(polls[1..], buffer);
      case Data(t) =>
        assert WaitOutcome(polls, buffer) == WaitOutcome(polls[1..], buffer + t);
        assert Received(polls) == t + Received(polls[1..]);
        WaitKeepsChunks(polls[1..], buffer + t);
        assert buffer + (t + Received(polls[1..])) == (buffer + t) + Received(polls[1..]);
      case Fault(e) =>
    }
  }

  /** `wait_for_prompt`: the buffer starts empty, and each turn that finds data
      ready appends one received chunk. */
  method WaitForPrompt(sh: Shell) returns (w: Wait)
    modifies sh
    ensures (w, sh.polls) == WaitOutcome(old(sh.polls), "")
    ensures sh.sent == old(sh.sent)
  {
    var buffer := "";
    while !AtPrompt(buffer)
      invariant WaitOutcome(sh.polls, buffer) == WaitOutcome(old(sh.polls), "")
      invariant sh.sent == old(sh.sent)
      decreases |sh.polls|
    {
      var p := sh.NextPoll();
      match p
      case None =>
        return Stalled(buffer);
      case Some(Idle) =>
      case Some(Data(t)) =>
        buffer := buffer + t;
      case Some(Fault(e)) =>
        return Raised(e);
    }
    return Settled(buffer);
  }

  // ---------------------------------------------------------------- ssh_to_switch

  /** `ssh.connect` + `invoke_shell` + the first `recv(65535)`. */
  datatype Connect = Connected(banner: string) | Refused(error: Failure)

  /** `(success, output)` as returned, or `Hung` where the source never returns. */
  datatype SessionResult = Finished(ok: bool, message: string) | Hung

  function Header(ip: string, banner: string): string {
    "--- Initial Response from " + ip + " ---\n" + banner + "\n"
  }

  function Section(command: string, output: string): string {
    "\n--- Command: '" + command + "' ---\n" + output
  }

  /** The f-string of each `except` clause: the text before the switch's
      address and the text after it. */
  function ErrorMessage(ip: string, e: Failure): string {
    ErrorLead(e) + ip + ErrorTail(e)
  }

  function ErrorLead(e: Failure): string {
    match e
    case AuthFailure => "Authentication failed for "
    case SshFailure(_) => "SSH connection error for "
    case OtherFailure(_) => "An unexpected error occurred for "
  }

  function ErrorTail(e: Failure): string {
    match e
    case AuthFailure => ". Please check username/password."
    case SshFailure(d) => ": " + d
    case OtherFailure(d) => ": " + d
  }


  /** What is sent for each command: the command and a newline. */
  function Sent(commands: seq<string>): (r: seq<string>)
    ensures |r| == |commands|
    ensures forall i :: 0 <= i < |commands| ==> r[i] == commands[i] + "\n"
  {
    if commands == [] then [] else [commands[0] + "\n"] + Sent(commands[1..])
  }

  /** Where the command loop ends: the result, the polls left unread, and how
      many commands were sent. */
  datatype Ran = Ran(result: SessionResult, rest: seq<Poll>, sent: nat)

  /** The command loop from command `i` on, with the transcript so far in `output`. */
  function RunFrom(ip: string, commands: seq<string>, i: nat, polls: seq<Poll>, output: string): (r: Ran)
    requires i <= |commands|
    ensures i <= r.sent <= |commands|
    ensures r.result.Finished? && r.result.ok ==> r.sent == |commands|
    decreases |commands| - i
  {
    if i == |commands| then Ran(Finished(true, output), polls, i)
    else
      var (w, rest) := WaitOutcome(polls, "");
      match w
      case Settled(buffer) => RunFrom(ip, commands, i + 1, rest, output + Section(commands[i], buffer))
      case Raised(e) => Ran(Finished(false, ErrorMessage(ip, e)), rest, i + 1)
      case Stalled(_) => Ran(Hung, rest, i + 1)
  }

  /** `ssh_to_switch` as a whole, from the connection attempt on. */
  function Session(ip: string, commands: seq<string>, connect: Connect, polls: seq<Poll>): Ran {
    match connect
    case Refused(e) => Ran(Finished(false, ErrorMessage(ip, e)), polls, 0)
    case Connected(banner) => RunFrom(ip, commands, 0, polls, Header(ip, banner))
  }

  /** `ssh_to_switch`: sends the commands in order, each followed by a newline,
      waiting for the prompt after each one. */
  method SshToSwitch(ip: string, commands: seq<string>, connect: Connect, sh: Shell)
    returns (r: SessionResult)
    modifies sh
    ensures r == Session(ip, commands, connect, old(sh.polls)).result
    ensures sh.polls == Session(ip, commands, connect, old(sh.polls)).rest
    ensures sh.sent == old(sh.sent) + Sent(commands[..Session(ip, commands, connect, old(sh.polls)).sent])
  {
    match connect
    case Refused(e) =>
      assert commands[..0] == [];
      return Finished(false, ErrorMessage(ip, e));
    case Connected(banner) =>
      r := RunCommands(ip, commands, banner, sh);
  }

  /** The command loop of `ssh_to_switch` once the shell is open. */
  method RunCommands(ip: string, commands: seq<string>, banner: string, sh: Shell)
    returns (r: SessionResult)
    modifies sh
    ensures var whole := RunFrom(ip, commands, 0, old(sh.polls), Header(ip, banner));
      r == whole.result && sh.polls == whole.rest && sh.sent == old(sh.sent) + Sent(commands[..whole.sent])
  {
    ghost var whole := RunFrom(ip, commands, 0, sh.polls, Header(ip, banner));
    var output := Header(ip, banner);
    var i := 0;
    while i < |commands|
      invariant 0 <= i <= |commands|
      invariant RunFrom(ip, commands, i, sh.polls, output) == whole
      invariant sh.sent == old(sh.sent) + Sent(commands[..i])
      decreases |commands| - i
    {
      sh.Send(commands[i] + "\n");
      SentStep(commands, i);
      var w := WaitForPrompt(sh);
      match w
      case Settled(buffer) =>
        output := output + Section(commands[i], buffer);
        i := i + 1;
      case Raised(e) =>
        return Finished(false, ErrorMessage(ip, e));
      case Stalled(_) =>
        return Hung;
    }
    return Finished(true, output);
  }

  lemma SentStep(commands: seq<string>, i: nat)
    requires i < |commands|
    ensures Sent(commands[..i + 1]) == Sent(commands[..i]) + [commands[i] + "\n"]
  {
    SentAppend(commands[..i], [commands[i]]);
    assert commands[..i + 1] == commands[..i] + [commands[i]];
  }

  lemma {:induction false} SentAppend(a: seq<string>, b: seq<string>)
    ensures Sent(a + b) == Sent(a) + Sent(b)
  {
    if a != [] {
      assert (a + b)[1..] == a[1..] + b;
      SentAppend(a[1..], b);
    } else {
      assert a + b == b;
    }
  }

  /** The sections of a transcript, one per command, in order. */
  function Sections(commands: seq<string>, outputs: seq<string>): string
    requires |outputs| == |commands|
  {
    if commands == [] then "" else Section(commands[0], outputs[0]) + Sections(commands[1..], outputs[1..])
  }

  /** On success the transcript is the initial-response section followed by
      exactly one section per command, in order, each command's output ending at
      a prompt. */
  lemma SessionTranscript(ip: string, commands: seq<string>, connect: Connect, polls: seq<Poll>)
    requires Session(ip, commands, connect, polls).result.Finished?
    requires Session(ip, commands, connect, polls).result.ok
    ensures connect.Connected?
    ensures exists outputs: seq<string> | |outputs| == |commands| ::
      && (forall k :: 0 <= k < |outputs| ==> MatchesPrompt(LastSegment(outputs[k])))
      && Session(ip, commands, connect, polls).result.message == Header(ip, connect.banner) + Sections(commands, outputs)
  {
    var outputs := Buffers(|commands|, polls);
    TranscriptOutputs(ip, commands, 0, polls, Header(ip, connect.banner));
    BuffersAtPrompt(|commands|, polls);
    assert commands[0..] == commands;
  }

  /** The buffers the waits after the next `n` commands settle on, up to the
      first wait that does not settle. */
  function Buffers(n: nat, polls: seq<Poll>): seq<string> {
    if n == 0 then []
    else
      var (w, rest) := WaitOutcome(polls, "");
      if w.Settled? then [w.buffer] + Buffers(n - 1, rest) else []
  }

  /** Every buffer a wait settles on ends at a prompt. */
  lemma {:induction false} BuffersAtPrompt(n: nat, polls: seq<Poll>)
    ensures forall k :: 0 <= k < |Buffers(n, polls)| ==> MatchesPrompt(LastSegment(Buffers(n, polls)[k]))
  {
    if n > 0 {
      var (w, rest) := WaitOutcome(polls, "");
      if w.Settled? {
        WaitSettlesAtPrompt(polls, "");
        BuffersAtPrompt(n - 1, rest);
        var more := Buffers(n - 1, rest);
        assert Buffers(n, polls) == [w.buffer] + more;
        assert forall k :: 1 <= k < |more| + 1 ==> ([w.buffer] + more)[k] == more[k - 1];
      }
    }
  }

  /** A successful run from the i-th command settles after each remaining
      command, and its message is the output so far followed by one section
      per remaining command with the buffer it settled on. */
  lemma {:induction false} TranscriptOutputs(ip: string, commands: seq<string>, i: nat, polls: seq<Poll>, output: string)
    requires i <= |commands|
    requires RunFrom(ip, commands, i, polls, output).result.Finished?
    requires RunFrom(ip, commands, i, polls, output).result.ok
    ensures |Buffers(|commands| - i, polls)| == |commands| - i
    ensures RunFrom(ip, commands, i, polls, output).result.message == output + Sections(commands[i..], Buffers(|commands| - i, polls))
    decreases |commands| - i
  {
    if i < |commands| {
      var b, rest := RunSettles(ip, commands, i, polls, output);
      var section := Section(commands[i], b);
      TranscriptOutputs(ip, commands, i + 1, rest, output + section);
      var more := Buffers(|commands| - i - 1, rest);
      assert Buffers(|commands| - i, polls) == [b] + more;
      SectionsCons(commands, i, b, more);
      var after := Sections(commands[i + 1..], more);
      assert output + section + after == output + (section + after);
    }
  }

  /** A run that is still to succeed waits for the prompt after the i-th
      command, and goes on with that command's section added. */
  lemma RunSettles(ip: string, commands: seq<string>, i: nat, polls: seq<Poll>, output: string)
    returns (b: string, rest: seq<Poll>)
    requires i < |commands|
    requires RunFrom(ip, commands, i, polls, output).result.Finished?
    requires RunFrom(ip, commands, i, polls, output).result.ok
    ensures WaitOutcome(polls, "") == (Settled(b), rest)
    ensures RunFrom(ip, commands, i, polls, output) == RunFrom(ip, commands, i + 1, rest, output + Section(commands[i], b))
  {
    var (w, r) := WaitOutcome(polls, "");
    b, rest := w.buffer, r;
  }

  lemma SectionsCons(commands: seq<string>, i: nat, b: string, more: seq<string>)
    requires i < |commands| && |more| == |commands| - i - 1
    ensures Sections(commands[i..], [b] + more) == Section(commands[i], b) + Sections(commands[i + 1..], more)
  {
    assert ([b] + more)[0] == b && ([b] + more)[1..] == more;
    assert commands[i..][0] == commands[i] && commands[i..][1..] == commands[i + 1..];
  }

  /** A failure message names the switch. */
  lemma FailureNamesSwitch(ip: string, commands: seq<string>, connect: Connect, polls: seq<Poll>)
    requires Session(ip, commands, connect, polls).result.Finished?
    requires !Session(ip, commands, connect, polls).result.ok
    ensures Contains(Session(ip, commands, connect, polls).result.message, ip)
  {
    match connect
    case Refused(e) => ErrorNamesIp(ip, e);
    case Connected(banner) => RunFailureNamesSwitch(ip, commands, 0, polls, Header(ip, banner));
  }

  lemma {:induction false} RunFailureNamesSwitch(ip: string, commands: seq<string>, i: nat, polls: seq<Poll>, output: string)
    requires i <= |commands|
    requires RunFrom(ip, commands, i, polls, output).result.Finished?
    requires !RunFrom(ip, commands, i, polls, output).result.ok
    ensures Contains(RunFrom(ip, commands, i, polls, output).result.message, ip)
    decreases |commands| - i
  {
    var (w, rest) := WaitOutcome(polls, "");
    match w
    case Settled(b) => RunFailureNamesSwitch(ip, commands, i + 1, rest, output + Section(commands[i], b));
    case Raised(e) => ErrorNamesIp(ip, e);
    case Stalled(_) =>
  }

  lemma ErrorNamesIp(ip: string, e: Failure)
    ensures Contains(ErrorMessage(ip, e), ip)
  {
    ContainsMiddle(ErrorLead(e), ip, ErrorTail(e));
  }


  // ---------------------------------------------------------------- main

  const LogFilePath := "script_output.log"

  /** The command list `main` runs on every switch. */
  const Commands: seq<string> := ["conf t", "do wr mem", "", "end"]

  /** The notification `main` sends for one switch; its text is `Subject` and `Body`. */
  datatype Email = SuccessEmail(ip: string) | ErrorEmail(ip: string, message: string)

  datatype LogEntry = LogEntry(ip: string, message: string)

  /** The remote behaviour of one switch: its connection outcome and its polls. */
  datatype Switch = Switch(connect: Connect, polls: seq<Poll>)

  function Subject(e: Email): string {
    match e
    case SuccessEmail(ip) => "SUCCESS" + ": Configuration script completed for " + ip
    case ErrorEmail(ip, _) => "ERROR" + ": Configuration script failed for " + ip
  }

  function Body(e: Email): string {
    match e
    case SuccessEmail(ip) =>
      "The configuration script has successfully run on the switch at " + ip + ".\n\n"
      + "Please see the attached log file '" + LogFilePath + "' on the script server for detailed output."
    case ErrorEmail(ip, message) =>
      "The configuration script encountered an error for the switch at " + ip + ".\n\n"
      + "Error Message:\n" + message + "\n\n"
      + "Please check the device and the log file '" + LogFilePath + "' on the script server for more details."
  }

  function EmailFor(ip: string, ok: bool, message: string): Email {
    if ok then SuccessEmail(ip) else ErrorEmail(ip, message)
  }

  /** The subject tells success from failure by its first word and names the switch. */
  lemma SubjectTellsOutcome(ip: string, ok: bool, message: string)
    ensures StartsWith(Subject(EmailFor(ip, ok, message)), "SUCCESS") <==> ok
    ensures Contains(Subject(EmailFor(ip, ok, message)), ip)
  {
    var t := Subject(EmailFor(ip, ok, message));
    assert t + "" == t;
    if ok {
      StartsWithConcat("SUCCESS", ": Configuration script completed for " + ip, "SUCCESS");
      assert t == "SUCCESS" + (": Configuration script completed for " + ip);
      ContainsMiddle("SUCCESS" + ": Configuration script completed for ", ip, "");
    } else {
      assert t[0] == 'E';
      ContainsMiddle("ERROR" + ": Configuration script failed for ", ip, "");
    }
  }

  /** The outcome of `ssh_to_switch` on one switch. */
  function Outcome(ip: string, commands: seq<string>, sw: Switch): SessionResult {
    Session(ip, commands, sw.connect, sw.polls).result
  }

  /** The outcome of every switch's session, in file order. */
  function Outcomes(ips: seq<string>, commands: seq<string>, world: nat -> Switch): (r: seq<SessionResult>)
    ensures |r| == |ips|
    ensures forall k :: 0 <= k < |ips| ==> r[k] == Outcome(ips[k], commands, world(k))
  {
    seq(|ips|, k requires 0 <= k < |ips| => Outcome(ips[k], commands, world(k)))
  }

  /** What `main` leaves behind: log entries, emails, and whether a session hung
      (after which nothing more happens). */
  datatype Run = Run(logs: seq<LogEntry>, emails: seq<Email>, hung: bool)

  /** What `main` does for the switches from index `k` on, given their outcomes. */
  function Report(ips: seq<string>, outcomes: seq<SessionResult>, k: nat): Run
    requires |outcomes| == |ips| && k <= |ips|
    decreases |ips| - k
  {
    if k == |ips| then Run([], [], false)
    else
      match outcomes[k]
      case Hung => Run([], [], true)
      case Finished(ok, message) =>
        var rest := Report(ips, outcomes, k + 1);
        Run([LogEntry(ips[k], message)] + rest.logs, [EmailFor(ips[k], ok, message)] + rest.emails, rest.hung)
  }

  /** One call of `ssh_to_switch` with the command list of `main`, on a fresh channel. */
  method RunOnSwitch(ip: string, sw: Switch) returns (res: SessionResult)
    ensures res == Outcome(ip, Commands, sw)
  {
    var sh := new Shell(sw.polls);
    res := SshToSwitch(ip, Commands, sw.connect, sh);
  }

  /** `main`: reads the IP file (None when it does not exist), then runs one
      session per switch, logging its output and sending one email. */
  method ConfigureSwitches(ipFile: Option<seq<string>>, world: nat -> Switch) returns (r: Run)
    ensures ipFile.None? ==> r == Run([], [], false)
    ensures ipFile.Some? ==>
      var ips := StripNonBlank(ipFile.value); r == Report(ips, Outcomes(ips, Commands, world), 0)
  {
    if ipFile.None? {
      return Run([], [], false);
    }
    var ips := StripNonBlank(ipFile.value);
    if ips == [] {
      return Run([], [], false);
    }
    r := ConfigureEach(ips, world);
  }

  /** Log entries and emails already produced, followed by those still to come. */
  function After(logs: seq<LogEntry>, emails: seq<Email>, r: Run): Run {
    Run(logs + r.logs, emails + r.emails, r.hung)
  }

  /** The loop of `main` over the switches. */
  method ConfigureEach(ips: seq<string>, world: nat -> Switch) returns (r: Run)
    ensures r == Report(ips, Outcomes(ips, Commands, world), 0)
  {
    ghost var outcomes := Outcomes(ips, Commands, world);
    var logs: seq<LogEntry> := [];
    var emails: seq<Email> := [];
    var i := 0;
    assert After(logs, emails, Report(ips, outcomes, 0)) == Report(ips, outcomes, 0);
    while i < |ips|
      invariant 0 <= i <= |ips|
      invariant After(logs, emails, Report(ips, outcomes, i)) == Report(ips, outcomes, 0)
      decreases |ips| - i
    {
      var res := RunOnSwitch(ips[i], world(i));
      assert res == outcomes[i];
      match res
      case Hung =>
        HungStep(ips, outcomes, i, logs, emails);
        return Run(logs, emails, true);
      case Finished(ok, message) =>
        FinishedStep(ips, outcomes, i, logs, emails);
        logs := logs + [LogEntry(ips[i], message)];
        emails := emails + [EmailFor(ips[i], ok, message)];
        i := i + 1;
    }
    assert logs + [] == logs && emails + [] == emails;
    return Run(logs, emails, false);
  }

  lemma HungStep(ips: seq<string>, outcomes: seq<SessionResult>, i: nat, logs: seq<LogEntry>, emails: seq<Email>)
    requires |outcomes| == |ips| && i < |ips| && outcomes[i].Hung?
    ensures After(logs, emails, Report(ips, outcomes, i)) == Run(logs, emails, true)
  {
    assert logs + [] == logs && emails + [] == emails;
  }

  lemma FinishedStep(ips: seq<string>, outcomes: seq<SessionResult>, i: nat, logs: seq<LogEntry>, emails: seq<Email>)
    requires |outcomes| == |ips| && i < |ips| && outcomes[i].Finished?
    ensures After(logs, emails, Report(ips, outcomes, i))
      == After(logs + [LogEntry(ips[i], outcomes[i].message)],
               emails + [EmailFor(ips[i], outcomes[i].ok, outcomes[i].message)],
               Report(ips, outcomes, i + 1))
  {
    var rest := Report(ips, outcomes, i + 1);
    var entry, email := LogEntry(ips[i], outcomes[i].message), EmailFor(ips[i], outcomes[i].ok, outcomes[i].message);
    assert Report(ips, outcomes, i) == Run([entry] + rest.logs, [email] + rest.emails, rest.hung);
    assert logs + ([entry] + rest.logs) == (logs + [entry]) + rest.logs;
    assert emails + ([email] + rest.emails) == (emails + [email]) + rest.emails;
  }

  /** Unless a session hangs, every switch gets exactly one email, in order:
      SUCCESS when its session succeeded and ERROR with the message otherwise. */
  lemma {:induction false} OneEmailPerSwitch(ips: seq<string>, outcomes: seq<SessionResult>, k: nat)
    requires |outcomes| == |ips| && k <= |ips|
    requires !Report(ips, outcomes, k).hung
    ensures |Report(ips, outcomes, k).emails| == |ips| - k
    ensures forall j :: k <= j < |ips| ==>
      outcomes[j].Finished? &&
      Report(ips, outcomes, k).emails[j - k] == EmailFor(ips[j], outcomes[j].ok, outcomes[j].message)
    decreases |ips| - k
  {
    if k < |ips| {
      OneEmailPerSwitch(ips, outcomes, k + 1);
    }
  }
}
