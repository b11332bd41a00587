# DevNet network-admin scripts, modelled in Dafny

The repository is a set of Python scripts for running a Cisco network:
- sessions that log in with SSH and push commands or read tables;
- helpers that parse text, CSV and JSON files;
- an IP-address enricher that queries RDAP, AWS and WHOIS;
- a subnet calculator;
- two small desktop tools, a time tracker and a quiz.

This project models the logic of those scripts that can be stated once file,
GUI and network I/O are peeled off, and proves what each one promises.

One Dafny module per script:

| module | script | what is modelled |
|---|---|---|
| `SwConfig16` | SW_Config_1.6.py | `wait_for_prompt`: the prompt test on the last line of the buffer, and the polling loop over a scripted `Shell` channel. `ssh_to_switch`: its transcript and result. `main`: one e-mail per switch. |
| `Credentials` | both ACL scripts | the username fallback loop: one failure message per failed try-block, stopping at the first one that completes |
| `AclSyntax` | Cisco_ACL_Syntax_Logic.py | the search-string test, the found/not-found file choice, the failure log and the summary |
| `AccessList` | show_ip_access_list.py | the `0.0.1.255` test, True.txt/False.txt, and failed.txt |
| `SshRetry` | ssh_try_multiple.py | the three-attempt connect loop, its sleeps, and one result line per address |
| `ConfigPush` | SW_Config_1.5.py | the command-file filter, the per-device attempt, and the logs and disconnect rule of `main` |
| `Ipv4` | ip_enricher_whois.py, subnet_calc.py | addresses as naturals below 2^32, prefixes and blocks, dotted-quad text, and `summarize_address_range` |
| `EnricherInput` | ip_enricher_whois.py | `parse_input_line` for CIDR, range and single-address input |
| `Rdap` | ip_enricher_whois.py | `RDAPClient`: its cache, the request/backoff schedule, registry classification and owner extraction |
| `AwsRanges` | ip_enricher_whois.py | `AWSRanges`: loading once, then overlap matching with sorted services and regions |
| `Whois` | ip_enricher_whois.py | server selection, and the org and ASN line parsing |
| `SubnetCalc` | subnet_calc.py | network, broadcast, host count, mask, wildcard and the usable range line |
| `TimeTracker` | Time_Tracker_v1_2.py | `TimeTrackerApp` as a class: start and stop guards, per-task totals, loading the day's sheet, and the h:m:s display |
| `Quiz` | CCNP_Quiz.py | CSV row conversion; the shuffle as CPython's Fisher-Yates loop; `QuizApp` as a class: start, answer and next question |
| `MacTable` | access_session_oui.py | the MAC-table `findall` and the lines appended per switch |
| `UniqueIps` | remove_duplicate_ips.py | dotted-quad extraction, the octet check, dedup and string-order sort |
| `ConfigDiff` | compare_configs.py | the positional line diff and its CSV rows |
| `ClientIps` | csv_json_verify_IP.py | the CSV-to-JSON client lookup and the mismatch records |
| `ApJoin` | csv_csv_mac.py | the name-to-address map and the join |
| `MissingIps` | missing_ip_list.py | the set difference of two line lists, sorted and joined |
| `IpColumns` | compare_csv.py | the two column sets and their difference |
| `LowerMac` | lower_case_mac.py | lower-casing a list of MAC addresses |
| `HostnameIp` | Hostname_To_IP.py | the parenthesised address in ping output, and the report lines |
| `Common` | all | Python's `str.strip`, `split`, `splitlines`, `join`, `in`, `str(n)`, string order and `sorted` of a set |

Everything outside the program is a parameter of the model:
- **SSH and HTTP.** How each connect, try-block or HTTP request ends is a function from the attempt (or device and attempt) to an outcome.
- **The interactive channel.** It is a finite script of polls (idle, data or an exception) held by the `Shell` class.
- **Subprocesses and libraries.** Ping output, the OUI lookup, `random.shuffle`'s draws, the `ipaddress` text parsers and the clock are parameters too.
- **Files.** A file read is its text, its lines or its rows; a file written is the text or rows the model returns.

Behaviour of the code that the model keeps as written, where it differs from what a reader might expect:
- In Cisco_ACL_Syntax_Logic.py, the summary counts failed attempts, not failed devices. A device that fails with two usernames counts twice.
- In Cisco_ACL_Syntax_Logic.py, only a completed try-block creates SNMP_Output_Files. On a first run where every device fails, opening the failure log raises `FileNotFoundError`, so neither the log nor the summary appears.
- In ip_enricher_whois.py, the org override test compares the line with `pat.lower()`, which is the whole regular expression, so it never fires. The first org match is kept.
- ip_enricher_whois.py's RDAP registry is the host name itself when no registry name occurs in it.
- In subnet_calc.py, `2 ** (32 - prefix) - 2` is 0 for a /31 and -1 for a /32. `hosts()` is never empty for IPv4 (Python 3.8 and later), so "No usable IPs" is never printed.
- In Time_Tracker_v1_2.py, `stop_timer` leaves `start_time` set. Only `timer_running` guards the next start.
- In CCNP_Quiz.py, a row too short for a column the loop reads raises inside the `try`. The whole load then returns None.
- In remove_duplicate_ips.py, the last group of `\d{1,3}` stops after three digits, so "1.2.3.4567" yields "1.2.3.456". A four-digit first group matches from its second digit.
- compare_configs.py compares raw lines and reports them stripped, so a reported pair can look equal.
- In csv_json_verify_IP.py and compare_csv.py, a row without a read column raises `KeyError` and ends the script. The model returns None there.
- In SW_Config_1.5.py, `disconnect()` runs in `finally`, outside every `except`. If it raises, the exception leaves the loop and `main`: later addresses get no attempt, and the closing message is not printed.
- csv_csv_mac.py opens its output for appending, so every run adds another header row.
- access_session_oui.py does not skip blank lines of the address file.
- missing_ip_list.py writes no final newline.
- In Hostname_To_IP.py, "()" yields an empty address, which is reported as a failure. The match cannot cross a newline.

## Model

| member | source | states |
|---|---|---|
| LowerMac.ConvertToLowercase | lower_case_mac.py:1-2 | one output per input, in order; each keeps its length and has every character lower-cased |
| LowerMac.SameAddress | lower_case_mac.py:1-2 | no upper-case letter is left; digits, separators and every non-capital stay as they were; a hexadecimal digit keeps its value |
| LowerMac.ConvertIdempotent | lower_case_mac.py:1-2 | converting the converted list again changes nothing |
| MissingIps.MissingListing | missing_ip_list.py:3-11 | `sorted(set1 - set2)`: strictly ascending, exactly the missing lines, as many as the set difference has |
| MissingIps.MissingMeaning | missing_ip_list.py:3-7 | a line is listed iff it is a line of list1 and, as an exact string, not a line of list2; duplicates collapse; the ascending listing of that set is unique |
| MissingIps.OutputEnds | missing_ip_list.py:11 | the written text never ends in a line break |
| MissingIps.OutputReadsBack | missing_ip_list.py:11-13 | when the last listed line is non-empty, splitting the file into lines gives the listing back, so the printed count is the number of lines written |
| IpColumns.ColumnMeaning | compare_csv.py:4-15 | the reading loop fails iff some row lacks the column; otherwise the set holds exactly that column's cells |
| IpColumns.CollectColumn | compare_csv.py:4-8 | the loop computes the column set, or stops with the `KeyError` |
| IpColumns.MissingMeaning | compare_csv.py:17-18 | an address is reported iff some Devices1 row carries it in 'IP Address' and no ExportCP row carries it in 'IP_Address', compared as raw text |
| IpColumns.PrintMissing | compare_csv.py:20-23 | every element of the set is printed exactly once, and nothing else |
| IpColumns.CompareCsv | compare_csv.py:1-23 | the script stops iff a reading loop raised; otherwise it prints each missing address once |
| ApJoin.NameToIpMeaning | csv_csv_mac.py:4-12 | a name is in the map iff some row of two or more cells carries it; its address is the second cell of the last such row |
| ApJoin.ExtraCellsIgnored | csv_csv_mac.py:8-31 | cells past the second change neither the map nor the written rows |
| ApJoin.LoadNames | csv_csv_mac.py:4-12 | the ap_ip.csv loop builds the name-to-address map |
| ApJoin.JoinedMeaning | csv_csv_mac.py:23-31 | every written row is [name, mapped address, MAC] of an ap1 row with a known name; short rows and unknown names are dropped; never more rows than input rows |
| ApJoin.JoinPositions | csv_csv_mac.py:23-31 | the positions of the written ap1 rows: ascending, each a row of at least two cells with a known name, and every such row listed |
| ApJoin.JoinedAtPositions | csv_csv_mac.py:23-31 | the join writes exactly one `[name, address, mac]` row per usable ap1 row with a known name, in ap1 order, the address taken from the dictionary |
| ApJoin.JoinRows | csv_csv_mac.py:23-31 | the ap1.csv loop writes the joined rows in ap1 order |
| ApJoin.Run | csv_csv_mac.py:1-33 | the output file is its old rows, one more header row, then the joined rows |
| HostnameIp.CloseFrom | Hostname_To_IP.py:11 | the nearest ')' from a position with no newline before it, or none when every later ')' is behind a newline |
| HostnameIp.SearchFrom | Hostname_To_IP.py:11 | the leftmost position from which the pattern matches, or none when it matches nowhere |
| HostnameIp.GetIpAddress | Hostname_To_IP.py:4-14 | None when ping failed or nothing matched; otherwise the text from the leftmost match position to the nearest ')', holding no ')' and no newline |
| HostnameIp.FirstParenthesised | Hostname_To_IP.py:11 | output of the form "pre(ip)post", with no '(' in pre, gives exactly ip |
| HostnameIp.EmptyParenthesesFail | Hostname_To_IP.py:22-25 | "()" yields an empty match, which `main` reports as "Failed to get IP" |
| HostnameIp.ReportsMeaning | Hostname_To_IP.py:19-25 | one line per host in file order; the i-th line reports the i-th host with the outcome of its own ping |
| HostnameIp.WriteReports | Hostname_To_IP.py:19-25 | the loop writes each report line followed by a newline |
| HostnameIp.RunHostnames | Hostname_To_IP.py:16-25 | ips.txt is the report lines of the stripped host names |
| ConfigDiff.DiffPositions | compare_configs.py:19-20 | the positions `zip` reaches where the raw lines differ: ascending, each one differing, and every differing position listed |
| ConfigDiff.Diffs | compare_configs.py:17-22 | the pairs the loop appends: at most one per compared position |
| ConfigDiff.DiffsMeaning | compare_configs.py:17-22 | the j-th reported pair is the stripped pair of lines at the j-th differing position, so a pair is reported iff the raw lines differ, in line order |
| ConfigDiff.SurplusIgnored | compare_configs.py:19 | appending lines to the longer file leaves the report unchanged |
| ConfigDiff.IdenticalNoDiffs | compare_configs.py:17-22 | a file compared with itself gives no differences |
| ConfigDiff.StrippedPairLooksEqual | compare_configs.py:20-21 | the same text with different trailing whitespace is reported, as two equal values |
| ConfigDiff.FindDifferences | compare_configs.py:17-22 | the loop over `zip` returns the differences of the positions both files have |
| ConfigDiff.CsvRows | compare_configs.py:24-28 | one header row ["Config 1", "Config 2"], then one two-cell row per difference, in order |
| UniqueIps.MatchIsQuad | remove_duplicate_ips.py:5 | every match of the pattern is four groups of one to three digits joined by dots |
| UniqueIps.FindIps | remove_duplicate_ips.py:11 | every candidate `findall` returns is a dotted quad that occurs in the line |
| UniqueIps.LastOctetCut | remove_duplicate_ips.py:5 | "a.b.c.dddd" yields "a.b.c.ddd": the last group stops after three digits |
| UniqueIps.FirstOctetInsideRun | remove_duplicate_ips.py:5 | "dddd.x.y.z" yields the match that starts one digit in |
| UniqueIps.UniqueIpsMeaning | remove_duplicate_ips.py:8-15 | an address is collected iff some line has it as a candidate and every octet is at most 255 |
| UniqueIps.UniqueIpsFound | remove_duplicate_ips.py:11-15 | every collected address is a dotted quad that occurs in some input line |
| UniqueIps.ValidOctetsOfQuad | remove_duplicate_ips.py:14 | for a candidate the check reads exactly its four numbers |
| UniqueIps.AddLine | remove_duplicate_ips.py:11-15 | the loops over one line add exactly its valid candidates |
| UniqueIps.CollectIps | remove_duplicate_ips.py:6-15 | the loop over the lines builds the set of valid candidates of all lines |
| UniqueIps.WriteLines | remove_duplicate_ips.py:18-20 | the text is each address followed by '\n', in order |
| UniqueIps.ExtractUniqueIps | remove_duplicate_ips.py:3-20 | the written addresses are distinct, strictly ascending and exactly the collected set |
| UniqueIps.StringOrderNotNumeric | remove_duplicate_ips.py:19 | the order is that of strings: "10.0.0.1" sorts before "9.0.0.1" |
| ClientIps.FindByName | csv_json_verify_IP.py:40 | the first JSON object whose 'name' equals the CSV name, with none before it; none at all; or the `KeyError` of an object without 'name' met first |
| ClientIps.CheckRowMeaning | csv_json_verify_IP.py:36-48 | a row is reported iff its first JSON match exists and that match's `lanIp` differs from the CSV address; the record holds the CSV name and address and the JSON address; a name absent from the JSON gives nothing |
| ClientIps.FirstMatchWins | csv_json_verify_IP.py:40 | a later object with the same name is never consulted |
| ClientIps.MismatchesBound | csv_json_verify_IP.py:34-48 | at most one record per CSV row, and every record is the one some row produces |
| ClientIps.CheckMismatches | csv_json_verify_IP.py:33-48 | the loop over the CSV rows ends the script with a `KeyError` exactly when some row raises; otherwise it collects the record of every reporting row and nothing else, in CSV order |
| ClientIps.MismatchPositions | csv_json_verify_IP.py:35-48 | the positions of the reporting rows: ascending, each one reporting, and every reporting row listed |
| ClientIps.MismatchesAtPositions | csv_json_verify_IP.py:34-48 | the k-th entry of `mismatched_entries` is the record of the k-th reporting row, and there are as many entries as reporting rows |
| ClientIps.MismatchesFailIff | csv_json_verify_IP.py:35-43 | the run fails exactly when some CSV row raises a `KeyError` |
| ClientIps.FailureIsFinal | csv_json_verify_IP.py:35-43 | a row whose lookup raises ends the whole run |
| ClientIps.OutputRows | csv_json_verify_IP.py:16-22 | the header row of the three field names, then one row per mismatch with its cells in header order |
| SshRetry.SshConnect | ssh_try_multiple.py:5-21 | the retry loop's result is the one `RetryFrom` defines, with one sleep after each failed attempt: `attempt - 1` sleeps on success, three after giving up |
| SshRetry.RetryMeaning | ssh_try_multiple.py:9-21 | success on attempt `k` (1 to 3) exactly when the attempts before it failed and attempt `k` connected; giving up exactly when all three attempts fail, reporting three attempts and the third error |
| SshRetry.FirstConnectWins | ssh_try_multiple.py:10-15 | once the first `k - 1` attempts fail and attempt `k` connects, the result is success on attempt `k` |
| SshRetry.ResultTextNamesAddress | ssh_try_multiple.py:15-21 | the result line starts with "Success on " exactly for a success, and it always holds the address |
| SshRetry.RetryEach | ssh_try_multiple.py:34-37 | one result per address, in order, each from that address's own connect outcomes |
| SshRetry.RetryAll | ssh_try_multiple.py:29-37 | one result per line of the file, for the stripped line, in file order |
| Credentials.FailureTextNames | show_ip_access_list.py:37 | the failure message names the device and, in quotes, the username |
| Credentials.FallbackStopsAtFirstSuccess | show_ip_access_list.py:16-39 | when the usernames before `j` fail and `j` completes (or none is left), exactly one failure per earlier username is recorded, in order, naming each, and the loop ends with `j`'s output (or none) |
| Credentials.FallbackBounds | show_ip_access_list.py:16-39 | never more failures than usernames; no output exactly when every username failed, and then one failure per username |
| Credentials.RepeatedUsernameTriedAgain | show_ip_access_list.py:16-39 | a username listed twice is tried twice: a failure on the first try and a completed second try record one failure and keep the second output |
| Credentials.FailuresPerDevice | show_ip_access_list.py:53-54 | over the IP list, at most one failure per device and username, and exactly that many when every username fails everywhere |
| Credentials.AllClearMeansFirstUsernameWorks | show_ip_access_list.py:53-54 | no failure is recorded exactly when the first username completes on every device, and then every device's output is kept |
| AclSyntax.FoundAnyString | Cisco_ACL_Syntax_Logic.py:49-53 | the early-exit loop answers whether the output holds any of the search strings |
| AclSyntax.SavedFileTellsFound | Cisco_ACL_Syntax_Logic.py:56-64 | the output goes to the SNMP_Found file exactly when it holds a search string, and to the SNMP_NotFound file otherwise |
| AclSyntax.RunScriptOnDevice | Cisco_ACL_Syntax_Logic.py:33-83 | the username loop appends the failures the fallback defines, keeps the classified output of the first completed try, and runs the `else` branch exactly when every username failed |
| AclSyntax.AclScript | Cisco_ACL_Syntax_Logic.py:85-120 | a missing IP file ends the script; otherwise the stripped lines are swept with the comma-split usernames, and the end of the run follows from the failures recorded and from whether SNMP_Output_Files exists (it existed before, or a completed try-block created it) |
| AclSyntax.SweepDevices | Cisco_ACL_Syntax_Logic.py:108-109 | the loop over the devices keeps the outputs and failures of the sweep, in order |
| AclSyntax.NextDevice | Cisco_ACL_Syntax_Logic.py:109 | one device adds its own kept output and failures, and nothing else, to what came before |
| AclSyntax.SummaryReportsCount | Cisco_ACL_Syntax_Logic.py:62-120 | opening the failure log crashes, with no log and no summary, exactly when some attempt failed and SNMP_Output_Files is missing; otherwise the log is written exactly when some attempt failed, and the summary then gives the number of failed attempts (which counts attempts, not devices) |
| AclSyntax.AllRefusedFirstRunCrashes | Cisco_ACL_Syntax_Logic.py:62-114 | when every username fails on every device and SNMP_Output_Files did not exist before, the script crashes opening the failure log |
| AclSyntax.NothingKept | Cisco_ACL_Syntax_Logic.py:33-83 | devices on which every username fails save no output |
| AccessList.TrueFileMeansMarker | show_ip_access_list.py:27-30 | the output is appended to True.txt exactly when it contains "0.0.1.255" |
| AccessList.ClassifiedTextNamesDevice | show_ip_access_list.py:32 | the appended text starts with "IP address: " and the device, and holds the whole output |
| AccessList.RunScriptOnDevice | show_ip_access_list.py:9-39 | the username loop appends the failures the fallback defines and keeps the classified output of the first completed try |
| AccessList.FailedFileEmptyIffNoFailure | show_ip_access_list.py:57-59 | failed.txt is written empty exactly when no attempt failed |
| AccessList.AccessListScript | show_ip_access_list.py:41-59 | a missing to_do.txt ends the script; otherwise the stripped lines are swept with the comma-split usernames and failed.txt lists every failure |
| AccessList.SweepDevices | show_ip_access_list.py:53-54 | the loop over the devices keeps the outputs and failures of the sweep, in order |
| AccessList.NextDevice | show_ip_access_list.py:54 | one device adds its own kept output and failures, and nothing else, to what came before |
| ConfigPush.KeepCommands | SW_Config_1.5.py:21 | no more commands than lines, and every kept line is neither blank nor a comment |
| ConfigPush.LoadConfigCommands | SW_Config_1.5.py:16-27 | a missing file gives no commands; every loaded command is non-empty and does not start with '#' |
| ConfigPush.KeepCommandsMembers | SW_Config_1.5.py:21 | a stripped line is kept exactly when it is neither blank nor a comment |
| ConfigPush.LoadedCommandsAreStripped | SW_Config_1.5.py:21 | every loaded command is the stripped form of some line of the file and has no whitespace at either end |
| ConfigPush.KeepIsIdempotent | SW_Config_1.5.py:21 | filtering already filtered commands changes nothing |
| ConfigPush.LoadIsIdempotent | SW_Config_1.5.py:16-24 | a file made of loaded commands loads back to the same commands |
| ConfigPush.ProcessDevice | SW_Config_1.5.py:68-101 | one connection attempt and at most one push per device; the `finally` block calls `disconnect()` exactly when the connection object exists; a success means the connect worked and the push returned that output; the attempt carries a disconnect error exactly when that `disconnect()` raises |
| ConfigPush.ErrorLineOnlyOnFailure | SW_Config_1.5.py:85-96 | an error-log line is written exactly for a failed attempt, and it starts with the device's address |
| ConfigPush.AttemptsFrom | SW_Config_1.5.py:56-101 | never more attempts than addresses left, and at least one when an address is left |
| ConfigPush.AttemptsFromAt | SW_Config_1.5.py:56-101 | the attempts follow the addresses in order: the k-th is the attempt on the k-th address, decided by that device's own answers |
| ConfigPush.AttemptsStop | SW_Config_1.5.py:56-101 | the attempts stop at the first device whose `disconnect()` raises; every address is reached exactly when no device before the last one raises there |
| ConfigPush.CrashMeansDisconnectRaised | SW_Config_1.5.py:97-103 | from a given device on, the script ends with an exception, without its closing message, exactly when the `disconnect()` of one of those devices raises |
| ConfigPush.Deploy | SW_Config_1.5.py:29-103 | no commands ends `main` first, then a missing IP file, then an IP file without addresses; otherwise the non-blank stripped addresses get one attempt each, in order, until a `disconnect()` raises, exactly the connected ones are disconnected, and the run records that error |
| ConfigPush.DeployEach | SW_Config_1.5.py:56-101 | the loop makes the attempts `AttemptsFrom` defines, disconnects the connected devices in order, and is left by the error of a `disconnect()` that raises |
| ConfigPush.ConnectedIpsAppend | SW_Config_1.5.py:97-100 | one more attempt adds its address to the disconnected ones exactly when it opened a connection |
| ConfigPush.OneErrorLinePerFailure | SW_Config_1.5.py:85-96 | the error log gets at most one line per attempt, exactly one per failed attempt |
| ConfigPush.DisconnectOnlyWhenConnected | SW_Config_1.5.py:97-100 | among the addresses the loop reaches, one is disconnected exactly when some attempt on it connected, never when `ConnectHandler` raised |
| SwConfig16.LastSegmentIsSplit | SW_Config_1.6.py:93 | the last line as the model defines it is the last piece of `buffer.split('\n')` |
| SwConfig16.AtPromptIsRegexSearch | SW_Config_1.6.py:91-93 | the loop's prompt test on the buffer holds exactly when `[\w.-]+[>#]\s*$` matches the buffer's last line |
| SwConfig16.MatchesPromptSnoc | SW_Config_1.6.py:91 | trailing whitespace does not change whether the pattern matches; any other last character matches exactly when it is `>` or `#` after a name character |
| SwConfig16.TrailingNewlineIsNoPrompt | SW_Config_1.6.py:93 | a buffer ending in a newline has an empty last line, which never counts as a prompt |
| SwConfig16.PromptExamples | SW_Config_1.6.py:91 | "Switch#" and "Switch> " count as prompts; a bare "#" and "Switch(config)#" do not |
| SwConfig16.Shell.Send | SW_Config_1.6.py:102 | the text is added to what the channel has sent, and the remote script is untouched |
| SwConfig16.Shell.NextPoll | SW_Config_1.6.py:94-95 | the next scripted poll is consumed and returned, or nothing when the script is exhausted |
| SwConfig16.WaitSettlesAtPrompt | SW_Config_1.6.py:91-97 | `wait_for_prompt` returns only with a buffer whose last line matches the prompt pattern |
| SwConfig16.WaitKeepsChunks | SW_Config_1.6.py:92-96 | unless an exception ends it, the returned buffer is every chunk read, in order, and the unread chunks are left on the channel |
| SwConfig16.WaitForPrompt | SW_Config_1.6.py:91-97 | the polling loop ends as the wait outcome defines it, consuming exactly the polls it reads and sending nothing |
| SwConfig16.Sent | SW_Config_1.6.py:102 | one text per command, that command followed by a newline |
| SwConfig16.RunFrom | SW_Config_1.6.py:100-111 | never more commands sent than listed, and a success means every command was sent |
| SwConfig16.SshToSwitch | SW_Config_1.6.py:52-124 | the session result, the polls left and the text sent (each command sent so far, with a newline) are those of the session function |
| SwConfig16.RunCommands | SW_Config_1.6.py:99-111 | the command loop sends each command and waits after it, ending as the session function says |
| SwConfig16.SentAppend | SW_Config_1.6.py:100-102 | what is sent for two command lists in turn is what is sent for each |
| SwConfig16.SessionTranscript | SW_Config_1.6.py:86-111 | a success means the connection opened, and the transcript is the initial-response section and then one section per command, in order, each output ending at a prompt |
| SwConfig16.BuffersAtPrompt | SW_Config_1.6.py:104 | every command output the loop keeps ends at a prompt |
| SwConfig16.TranscriptOutputs | SW_Config_1.6.py:100-105 | a successful run from the i-th command on adds one section per remaining command, with the buffer it settled on |
| SwConfig16.FailureNamesSwitch | SW_Config_1.6.py:113-124 | every failure message names the switch's address |
| SwConfig16.RunFailureNamesSwitch | SW_Config_1.6.py:100-124 | a failure inside the command loop also gives a message that names the switch |
| SwConfig16.ErrorNamesIp | SW_Config_1.6.py:113-124 | each of the three `except` messages holds the address |
| SwConfig16.SubjectTellsOutcome | SW_Config_1.6.py:169-183 | the subject starts with "SUCCESS" exactly when the session succeeded, and it names the switch |
| SwConfig16.Outcomes | SW_Config_1.6.py:160-163 | one session outcome per switch, in file order, each on that switch's own behaviour |
| SwConfig16.RunOnSwitch | SW_Config_1.6.py:163 | one `ssh_to_switch` call with `main`'s command list on a fresh channel gives that switch's outcome |
| SwConfig16.ConfigureSwitches | SW_Config_1.6.py:128-186 | a missing IP file does nothing; otherwise the non-blank stripped addresses are processed as the report function says |
| SwConfig16.ConfigureEach | SW_Config_1.6.py:160-184 | the loop over the switches logs and emails in order, and stops at the first session that hangs |
| SwConfig16.HungStep | SW_Config_1.6.py:163 | a hanging session ends the run with what was produced before it |
| SwConfig16.FinishedStep | SW_Config_1.6.py:163-183 | a finished session adds its log entry and its email, then the run goes on |
| SwConfig16.OneEmailPerSwitch | SW_Config_1.6.py:160-184 | unless a session hangs, every switch gets exactly one email, in order: SUCCESS on success, ERROR with the message otherwise |
| Ipv4.NetworkOf | ip_enricher_whois.py:74 | the network address is at or below the address, less than one block below it |
| Ipv4.BroadcastOf | ip_enricher_whois.py:75 | the broadcast address is at or above the address, and exactly one block size minus one above the network address |
| Ipv4.OverlapsMeansCommonAddress | ip_enricher_whois.py:202 | two blocks overlap exactly when some address lies in both |
| Ipv4.TrailingZeros | ip_enricher_whois.py:85 | the count of trailing zero bits never exceeds the width, and clearing that many low bits leaves the number unchanged |
| Ipv4.TrailingZerosMaximal | ip_enricher_whois.py:85 | the count is the largest such: for a nonzero number below the width, clearing one more bit changes it |
| Ipv4.Log2Floor | ip_enricher_whois.py:85 | the largest `k` with `2^k <= n` |
| Ipv4.Summarize | ip_enricher_whois.py:85 | every block of the summary is aligned and lies inside the range, and the summary is empty exactly when the range is |
| Ipv4.SummarizeContiguous | ip_enricher_whois.py:85 | the blocks come in ascending order, each starting right after the previous one ends, the first at the range's first address and the last ending at its last address |
| Ipv4.SummarizeStep | ip_enricher_whois.py:85 | each step's block is aligned, starts at the first address left, and ends no later than the last one |
| Ipv4.SummarizeStepLargest | ip_enricher_whois.py:85 | no larger block would do: one more host bit would misalign the first address, pass the last address, or exceed 32 bits |
| Ipv4.SummarizeCovers | ip_enricher_whois.py:85 | the summary's blocks together hold exactly the addresses of the range |
| Ipv4.SummarizeFind | ip_enricher_whois.py:85 | every address of the range lies in some block of the summary |
| EnricherInput.BlockTexts | ip_enricher_whois.py:85 | one CIDR text per block, in order |
| EnricherInput.ParseRaw | ip_enricher_whois.py:66-90 | an accepted line keeps its stripped text and has start at or below end; "Empty input" is raised exactly for an empty stripped line |
| EnricherInput.CidrIgnoresHostBits | ip_enricher_whois.py:70-76 | a line with '/' is a CIDR block whatever else it holds; host bits are ignored, start and end are the network and broadcast addresses, and the range holds exactly one block's addresses |
| EnricherInput.RangeIsOrdered | ip_enricher_whois.py:77-86 | an "a-b" line is put in order whichever way round it is written, and its CIDR list is the summary of that range |
| EnricherInput.RangeBlocksCoverRange | ip_enricher_whois.py:85-86 | the blocks of a range's CIDR list hold exactly the addresses from start to end |
| EnricherInput.SingleIsSlash32 | ip_enricher_whois.py:87-90 | a line with neither '/' nor '-' is one address, with start and end both that address, and its CIDR list is the address as a /32 |
| EnricherInput.EmptyInputIsBlankLine | ip_enricher_whois.py:67-69 | "Empty input" is raised exactly for a line of whitespace only |
| Rdap.AfterScheme | ip_enricher_whois.py:133 | what is left after the scheme is never longer than the URL |
| Rdap.NetlocEnd | ip_enricher_whois.py:133 | the host part ends at the first '/', '?' or '#', or at the end of the text |
| Rdap.Netloc | ip_enricher_whois.py:133 | the host part holds no '/', '?' or '#' |
| Rdap.RegistryClassification | ip_enricher_whois.py:129-145 | no registry exactly without a final URL; otherwise the first registry in the fixed order whose domain the host holds, and the lower-cased host itself when it holds none |
| Rdap.RegistryOrderExample | ip_enricher_whois.py:134-145 | "rdap.arin.net.ripe.net" is ARIN, since the tests run in order; "ripe.net" is RIPE NCC; "rdap.example.org" is reported as itself |
| Rdap.FirstTruthyFn | ip_enricher_whois.py:149-162 | the reference owner, when there is one, is non-empty |
| Rdap.OwnerFromIsFirstTruthyFn | ip_enricher_whois.py:149-162 | the entity loop finds a truthy owner exactly when some listed entity has a non-empty `fn`, and then it is the first such |
| Rdap.OwnerIsFirstFnOrName | ip_enricher_whois.py:148-164 | the owner is the first non-empty `fn` of an entity with a listed role, and the document's name otherwise |
| Rdap.ParseRdap | ip_enricher_whois.py:128-165 | the two loops give the five fields the parse function defines |
| Rdap.ScanItems | ip_enricher_whois.py:154-160 | the vCard loop stops at the first `fn` item that has a fourth field, skipping items whose indexing raises; with none, the owner stays as it was |
| Rdap.BackoffDoubles | ip_enricher_whois.py:122 | doubling the backoff, capped at 30, steps through 2, 4, 8, 16, 30 |
| Rdap.FetchSchedule | ip_enricher_whois.py:108-126 | at most five requests; the sleeps follow the schedule 2, 4, 8, 16, 30, one before each retry; a fetched document comes from the last request |
| Rdap.FetchedRecordsFinalUrl | ip_enricher_whois.py:111-117 | a fetched document records the final URL of the 200 reply it came from |
| Rdap.RdapClient.constructor | ip_enricher_whois.py:95-100 | the cache starts empty |
| Rdap.RdapClient.LookupIp | ip_enricher_whois.py:102-126 | a cached address is parsed without a request and leaves the cache alone; otherwise the fetch loop runs, and only a fetched document is cached (under "rdap:" and the address) and parsed |
| Rdap.FetchDocument | ip_enricher_whois.py:108-126 | the request loop ends, sleeps and counts its requests as the fetch function defines |
| AwsRanges.Kept | ip_enricher_whois.py:184-190 | the loop never appends more prefixes than there are entries |
| AwsRanges.KeptAligned | ip_enricher_whois.py:186-188 | every kept prefix is a strict network: its host bits are zero |
| AwsRanges.KeptMembers | ip_enricher_whois.py:184-190 | a prefix is kept exactly when some entry yields it: a strict IPv4 network, with its own service and region or "AMAZON" and "GLOBAL" |
| AwsRanges.KeptHas | ip_enricher_whois.py:184-190 | what an entry yields is kept |
| AwsRanges.KeptFrom | ip_enricher_whois.py:184-190 | every kept prefix comes from some entry |
| AwsRanges.HostIsSlash32 | ip_enricher_whois.py:200 | a bare address is compared as its /32, which overlaps a block exactly when the address lies in the block |
| AwsRanges.HitsOfMembers | ip_enricher_whois.py:201-205 | the hits of one candidate are the prefixes it overlaps |
| AwsRanges.GatherHas | ip_enricher_whois.py:199-205 | a hit of any candidate is gathered |
| AwsRanges.GatherFrom | ip_enricher_whois.py:199-205 | whatever is gathered is a hit of some candidate |
| AwsRanges.HitsMembers | ip_enricher_whois.py:199-205 | a prefix is hit exactly when it is loaded and some candidate overlaps it |
| AwsRanges.MatchedIffOverlap | ip_enricher_whois.py:198-203 | `matched` is true exactly when some candidate overlaps some prefix |
| AwsRanges.ServiceIffOverlap | ip_enricher_whois.py:204 | a service is reported exactly when a prefix carrying it overlaps some candidate |
| AwsRanges.RegionIffOverlap | ip_enricher_whois.py:205 | a region is reported exactly when a prefix carrying it overlaps some candidate |
| AwsRanges.InHits | ip_enricher_whois.py:202-205 | an overlapping prefix is among the hits |
| AwsRanges.AwsRangesTable.constructor | ip_enricher_whois.py:170-175 | the table starts unloaded and empty |
| AwsRanges.AwsRangesTable.EnsureLoaded | ip_enricher_whois.py:177-191 | a loaded table is left alone; otherwise a 200 reply appends the kept prefixes and marks the table loaded, another status leaves it unloaded, and a failed GET or bad JSON raises |
| AwsRanges.AwsRangesTable.AppendPrefixes | ip_enricher_whois.py:184-190 | the loop appends exactly the kept prefixes, in order |
| AwsRanges.AwsRangesTable.Match | ip_enricher_whois.py:193-206 | after the load, an unloaded table gives (False, [], []); otherwise the verdict, and the sorted distinct services and regions of every prefix some candidate overlaps |
| AwsRanges.KeepEntry | ip_enricher_whois.py:185-190 | one entry yields what `KeptOne` defines: the prefix with its defaults when it is a strict IPv4 network, nothing otherwise |
| AwsRanges.SetsOfAppend | ip_enricher_whois.py:204-205 | the services and regions of two lists of hits are those of each |
| AwsRanges.ScanStep | ip_enricher_whois.py:201-205 | one more prefix adds its service and region exactly when it overlaps |
| AwsRanges.ScanPrefixes | ip_enricher_whois.py:201-205 | for one candidate, the inner loop adds the services and regions of the prefixes it overlaps, and sets `matched` when there is one |
| Whois.ServerSelection | ip_enricher_whois.py:222-227 | the server is always one of the five registry servers: the hinted registry's own when the hint names one, ARIN's otherwise |
| Whois.RawPathNamesHintAndServer | ip_enricher_whois.py:245 | the trace starts with the hint and ':' (or "UNKNOWN:" without a hint) and ends with the server |
| Whois.OrgGroup | ip_enricher_whois.py:252-256 | group 1 of `\s*(.+)$` is never empty, even on a rest of whitespace only |
| Whois.TrimLeftKeepsLast | ip_enricher_whois.py:263 | trimming leading whitespace keeps a last character that is not whitespace |
| Whois.OrgValueOfStripped | ip_enricher_whois.py:259-263 | on a stripped line, a pattern's value is the rest of the line after the pattern and the whitespace that follows, and it is never empty |
| Whois.DigitRun | ip_enricher_whois.py:269 | the leading run of digits: all digits, followed by a non-digit or the end |
| Whois.AsnNumber | ip_enricher_whois.py:269 | a match of `(AS\d+)\b` gives at least one digit and digits only |
| Whois.AsnAfter | ip_enricher_whois.py:269-271 | the AS number found after the keyword is "AS" followed by at least one digit, upper-cased |
| Whois.AsnNumberIgnoresCase | ip_enricher_whois.py:269 | "as16509" matches, with its five digits, since the match ignores case |
| Whois.AsnNumberNeedsBoundary | ip_enricher_whois.py:269 | "AS16509x" does not match: the number may not run into a word character |
| Whois.AsnNumberBeforeSpace | ip_enricher_whois.py:269 | "AS7 (route)" matches with the single digit 7 |
| Whois.FirstOrgIsFirstMatch | ip_enricher_whois.py:258-267 | the first matching line decides the organisation; a later match, even of the "more specific" ARIN or RIPE pattern, never replaces it |
| Whois.FirstOrgNone | ip_enricher_whois.py:258-267 | there is no organisation exactly when no line matches a pattern |
| Whois.LastAsnIsLastMatch | ip_enricher_whois.py:268-271 | a later AS match overrides an earlier one, so the last matching line decides |
| Whois.WhoisQuery | ip_enricher_whois.py:218-272 | a failed exchange gives no organisation and no AS, with the trace; otherwise the first organisation and the last AS of the stripped reply lines, with the trace |
| Whois.ScanLines | ip_enricher_whois.py:258-271 | the loop over the stripped lines keeps the first organisation match and the last AS match |
| Whois.MatchPatterns | ip_enricher_whois.py:260-267 | the inner loop gives the value of the first of the five patterns that matches the line |
| Whois.MatchFrom | ip_enricher_whois.py:260-267 | over any pattern list, the loop stops at the first pattern that matches and returns its value |
| Whois.FirstSomeNone | ip_enricher_whois.py:258-267 | the first-match search finds nothing exactly when no line gives a value |
| Whois.FirstSomeIsFirst | ip_enricher_whois.py:258-267 | the first-match search gives the value of the first line that has one |
| Whois.LastSomeIsLast | ip_enricher_whois.py:268-271 | the last-match search gives the value of the last line that has one |
| SubnetCalc.Hosts | subnet_calc.py:13 | every address `hosts()` lists lies in the block |
| SubnetCalc.NetworkAndBroadcast | subnet_calc.py:5-7 | the network address clears the host bits and the broadcast address sets them: the entered address lies between them, and they span exactly 2^(32 - prefix) addresses |
| SubnetCalc.BlockEnds | subnet_calc.py:5-7 | the same facts stated on the block's end points |
| SubnetCalc.ClearedIsCleared | subnet_calc.py:6 | clearing the host bits twice is clearing them once |
| SubnetCalc.HostCount | subnet_calc.py:8-13 | the host count is the block size less two, which matches the `hosts()` list up to a /30, but gives 0 for a /31 and -1 for a /32, where `hosts()` lists two and one addresses |
| SubnetCalc.ClearOnes | subnet_calc.py:10 | clearing the `k` low bits of `2^m - 1` leaves `2^m - 2^k` |
| SubnetCalc.MaskAndWildcard | subnet_calc.py:9-10 | the mask is `prefix` ones followed by zeros, the wildcard has exactly the host bits set, and the two add up to 0xFFFFFFFF |
| SubnetCalc.MaskBits | subnet_calc.py:9-10 | the same facts stated on the prefix length alone |
| SubnetCalc.UsableRangeInside | subnet_calc.py:13-14 | up to a /30, the usable range runs from the address after the network address to the one before the broadcast address |
| SubnetCalc.NoUsableIpsNeverShown | subnet_calc.py:13-14 | `hosts()` is never empty, so "No usable IPs" is never shown: a /31 shows its two addresses, and a /32 shows its one address twice |
| SubnetCalc.DigitsOnlyFormat | subnet_calc.py:14 | dotted-quad text starts with a digit, so it is never "No usable IPs" |
| TimeTracker.ElapsedSeconds | Time_Tracker_v1_2.py:137-139 | whole seconds truncated toward zero: for a forward clock the largest whole number of seconds that fits, for a clock that went back the smallest in magnitude |
| TimeTracker.Hms | Time_Tracker_v1_2.py:165-166 | hours, minutes and seconds add back up to the total, with minutes and seconds below 60 |
| TimeTracker.HmsUnique | Time_Tracker_v1_2.py:165-166 | the split is the only one with minutes and seconds below 60 |
| TimeTracker.AddTo | Time_Tracker_v1_2.py:149 | `d[k] = d.get(k, 0) + n`: the key's total grows by `n` from zero or its old value, and a new key goes last in insertion order |
| TimeTracker.LoadRowsSums | Time_Tracker_v1_2.py:95-101 | summary rows and empty names never become tasks; every loaded task appears once, in insertion order, and its total is the sum of that task's counted rows |
| TimeTracker.TimeTrackerApp.constructor | Time_Tracker_v1_2.py:33-44 | the timer starts idle with no task and zero seconds, and the totals are those today's sheet gives |
| TimeTracker.TimeTrackerApp.LoadDailyData | Time_Tracker_v1_2.py:80-107 | the totals are reset, then summed from today's sheet when there is one; a missing file, a missing sheet or an unreadable file leaves them empty; the timer is untouched |
| TimeTracker.TimeTrackerApp.StartTimer | Time_Tracker_v1_2.py:109-129 | an empty stripped name or a running timer only warns and changes nothing; otherwise the timer runs for the stripped name, from now, at zero seconds |
| TimeTracker.TimeTrackerApp.UpdateTimerDisplay | Time_Tracker_v1_2.py:161-168 | while the timer runs, the elapsed whole seconds since the start and their hh:mm:ss text; nothing otherwise |
| TimeTracker.TimeTrackerApp.StopTimer | Time_Tracker_v1_2.py:131-159 | without a running timer it only warns and changes nothing; otherwise the seconds since the start are added to the current task's total alone, and the timer goes idle with no task and zero seconds, leaving the start time set |
| TimeTracker.StopTouchesOneTask | Time_Tracker_v1_2.py:149 | stopping changes only the stopped task's total, by the seconds it ran; every other task keeps its total |
| Quiz.FirstIndex | CCNP_Quiz.py:42 | `list.index`: a position holding the value, with no earlier one |
| Quiz.OptionIndices | CCNP_Quiz.py:31-32 | at most one position per option column, each inside the header and naming an option column, and every option column the header has is included |
| Quiz.LayoutOf | CCNP_Quiz.py:25-34 | the header is accepted exactly when it has the three required columns; each position then names its column, and there are at most six option positions |
| Quiz.Options | CCNP_Quiz.py:37 | the options are exactly the non-empty cells at the option columns, none of them empty, at most one per column |
| Quiz.ConvertRow | CCNP_Quiz.py:36-50 | a row raises exactly when it is too short for a cell the loop reads; it is kept exactly when question, options and answer are non-empty and the answer is an option, and then the answer index names the first option equal to the answer |
| Quiz.LoadRows | CCNP_Quiz.py:36-50 | never more questions than rows |
| Quiz.LoadRowsMeaning | CCNP_Quiz.py:36-53 | the load gives None exactly when some row raises; otherwise the kept questions in row order |
| Quiz.KeptOf | CCNP_Quiz.py:36-50 | every kept question comes from some row |
| Quiz.LoadOutcome | CCNP_Quiz.py:10-55 | a missing, unreadable or empty file, or a header without a required column, gives None; every loaded question has text, non-empty options and an answer index inside them |
| Quiz.LoadQuestionsFromCsv | CCNP_Quiz.py:10-55 | the header check and the row loop give what the load function defines |
| Quiz.ReadRows | CCNP_Quiz.py:36-50 | the row loop appends the kept questions in order, and a row that raises ends it with None |
| Quiz.LoadRowsStep | CCNP_Quiz.py:36-50 | one more row keeps its question, skips, or makes the whole load None |
| Quiz.Pick | CCNP_Quiz.py:126 | the position swapped with position `i` is at most `i` |
| Quiz.ShuffleFrom | CCNP_Quiz.py:126 | the shuffle keeps the length |
| Quiz.ShuffleFromPermutes | CCNP_Quiz.py:126 | whatever the draws, the shuffle only reorders: the result is a permutation of the input |
| Quiz.SwapPermutes | CCNP_Quiz.py:126 | one swap is a permutation |
| Quiz.ShuffledPermutes | CCNP_Quiz.py:125-126 | the shuffled copy has the same length and the same questions, as a multiset |
| Quiz.Shuffle | CCNP_Quiz.py:126 | the in-place loop gives the shuffle the function defines |
| Quiz.SessionIsSubMultiset | CCNP_Quiz.py:125-127 | taking the first `num` shuffled questions gives `num` questions, none asked more often than it occurs in the file |
| Quiz.QuizApp.constructor | CCNP_Quiz.py:59-66 | the app holds the loaded questions, with none to ask yet, at index 0 and score 0 |
| Quiz.QuizApp.SetupStartScreen | CCNP_Quiz.py:90-94 | back to the first question with no score, the questions untouched |
| Quiz.QuizApp.StartQuiz | CCNP_Quiz.py:114-129 | an entry that does not parse or lies outside 1 to the number of questions warns and changes nothing; otherwise the session asks the first `num` questions of the shuffled copy, `num` questions, none more often than in the file |
| Quiz.QuizApp.CheckAnswer | CCNP_Quiz.py:161-192 | without a selection it warns and changes nothing; otherwise the score grows by one exactly when the selection is the answer index, and the feedback shows the verdict, the correct option when wrong, and the explanation |
| Quiz.QuizApp.NextQuestion | CCNP_Quiz.py:209-216 | the index moves one on, and the results screen comes exactly when it reaches the number of questions asked |
| MacTable.Run | access_session_oui.py:27 | a greedy repetition ends inside the text, not before where it starts |
| MacTable.RunSpan | access_session_oui.py:27 | the greedy run holds only matching characters and stops at a non-matching one or at the end |
| MacTable.RunUnique | access_session_oui.py:27 | any stretch of matching characters that stops at a non-matching one or the end is the greedy run |
| MacTable.RunCovers | access_session_oui.py:27 | the greedy run reaches at least as far as any stretch of matching characters |
| MacTable.MatchAt | access_session_oui.py:27 | a match at a position ends after it, inside the text |
| MacTable.MatchSound | access_session_oui.py:27 | a match is a digit run, whitespace, a dotted 4.4.4 hexadecimal MAC address, whitespace, one token, whitespace and the port token, with the groups cut from those pieces and the port token not cut short |
| MacTable.RunsAreSegments | access_session_oui.py:27 | the greedy runs of a match lie where the pattern's pieces must lie |
| MacTable.MatchComplete | access_session_oui.py:27 | wherever such pieces start the pattern matches, with the same VLAN and MAC address and a port token at least as long |
| MacTable.MatchGroups | access_session_oui.py:27 | each match's groups have the pattern's forms |
| MacTable.FindAll | access_session_oui.py:26-29 | every triple `findall` returns is a non-empty digit VLAN, a dotted MAC address and a non-empty port token without whitespace |
| MacTable.FindMacAddressesAndPorts | access_session_oui.py:26-29 | every triple found has the three groups' forms |
| MacTable.EntryAppends | access_session_oui.py:46-49 | one append per triple, in match order, each to the address's output file with that triple's line and its own manufacturer |
| MacTable.AllAppendsStep | access_session_oui.py:42-49 | one more address adds its own appends after the previous ones |
| MacTable.WriteEntries | access_session_oui.py:46-49 | the inner loop appends the lines the function defines |
| MacTable.VisitSwitches | access_session_oui.py:42-49 | the loop over addresses gives every switch's appends in file order, none for a failed session |
| MacTable.RunSwitches | access_session_oui.py:36-49 | `main` strips every address line, blank ones included, and appends what the loop defines |
| Common.LowerChar | lower_case_mac.py:3 | an upper-case ASCII letter becomes lower case, any other character is kept |
| Common.Lower | lower_case_mac.py:3 | lower-casing keeps the length and maps each character on its own |
| Common.AllSpaceConcat | ssh_try_multiple.py:31 | a text is all whitespace exactly when both its parts are |
| Common.StartsWithConcat | SW_Config_1.5.py:21 | appending text keeps a prefix |
| Common.AbsentChar | Cisco_ACL_Syntax_Logic.py:49-53 | `in` fails when the needle has a character the text lacks |
| Common.ContainsMiddle | Cisco_ACL_Syntax_Logic.py:49-53 | `in` holds for a text with the needle in the middle |
| Common.LinesSnoc | Hostname_To_IP.py:23-28 | writing one more line appends it and its newline |
| Common.TrimLeft | ip_enricher_whois.py:263 | `lstrip` removes a leading all-whitespace part and leaves no leading whitespace |
| Common.TrimRight | ssh_try_multiple.py:31 | `rstrip` keeps a prefix, removes only whitespace and leaves no trailing whitespace |
| Common.Strip | ssh_try_multiple.py:31 | `strip` leaves no whitespace at either end and never lengthens |
| Common.StripTrims | ssh_try_multiple.py:31 | `strip` removes the leading, then the trailing whitespace |
| Common.StripOfStripped | ssh_try_multiple.py:31 | a text without whitespace at either end is left alone |
| Common.StripPadded | ssh_try_multiple.py:31 | trailing whitespace after a stripped word is all that is removed |
| Common.TrimRightPadded | ssh_try_multiple.py:31 | `rstrip` of a word and whitespace gives the word |
| Common.StripIsStripped | ssh_try_multiple.py:31 | stripping twice is stripping once |
| Common.StripEmpty | SW_Config_1.5.py:21 | a stripped line is empty exactly when the line was all whitespace |
| Common.StripAll | ssh_try_multiple.py:31 | one stripped line per line, in order |
| Common.StripNonBlank | SW_Config_1.5.py:46 | never more lines than given, none of them empty |
| Common.StripNonBlankMembers | SW_Config_1.5.py:46 | a line is kept exactly when it is a non-empty stripped line |
| Common.IndexOf | ip_enricher_whois.py:78 | the position of the first occurrence of the character |
| Common.Split | remove_duplicate_ips.py:14 | `split` gives at least one piece and no piece holds the separator |
| Common.SplitStep | remove_duplicate_ips.py:14 | a separator-free piece, the separator and the rest split into that piece and the split of the rest |
| Common.JoinCons | missing_ip_list.py:11 | joining a piece onto more pieces puts the separator between |
| Common.JoinSplit | remove_duplicate_ips.py:14 | joining the pieces of a split with its separator gives the text back |
| Common.SplitJoin | remove_duplicate_ips.py:14 | splitting a join of separator-free pieces gives the pieces back |
| Common.IndexOfAfter | remove_duplicate_ips.py:14 | the first separator after a separator-free piece is where it begins |
| Common.LineEnd | missing_ip_list.py:3 | the first line boundary, or the end |
| Common.SplitLines | missing_ip_list.py:3 | `splitlines` gives lines without boundaries, never more than characters |
| Common.SplitLinesOfJoin | missing_ip_list.py:3-11 | lines joined by newlines, the last non-empty, split back into the same lines |
| Common.SplitLinesStep | missing_ip_list.py:3 | a line, a newline and more text: the line comes first |
| Common.LineEndNone | missing_ip_list.py:3 | a text without boundaries is one line to its end |
| Common.LineEndAt | missing_ip_list.py:3 | a line ends at the first boundary after it |
| Common.DigitChar | ssh_try_multiple.py:15 | a digit value is a digit character |
| Common.NatToString | ssh_try_multiple.py:15 | `str` of a natural number is digits, with no leading zero |
| Common.DecimalOfNatToString | ssh_try_multiple.py:15 | reading the decimal text back gives the number |
| Common.StrLessIrreflexive | missing_ip_list.py:11 | no string sorts before itself |
| Common.StrLessTransitive | missing_ip_list.py:11 | string order is transitive |
| Common.StrLessTotal | missing_ip_list.py:11 | of two different strings one sorts first |
| Common.StrLessAsymmetric | missing_ip_list.py:11 | two strings never each sort first |
| Common.Insert | missing_ip_list.py:11 | inserting into an ascending listing keeps it ascending and adds exactly the item |
| Common.SortedDistinct | missing_ip_list.py:11 | `sorted(set(xs))` is ascending and holds exactly the items of `xs` |
| Common.SortedListingUnique | missing_ip_list.py:11 | an ascending listing is determined by its items |
| Common.SortedListingSize | missing_ip_list.py:11 | an ascending listing is as long as its set |
| Common.SortSet | remove_duplicate_ips.py:19 | `sorted` of a set lists every item once, in ascending order |
| UniqueIps.DottedGroup | remove_duplicate_ips.py:5 | a `\d{1,3}\.` group covers two to four characters |
| UniqueIps.LastGroup | remove_duplicate_ips.py:5 | the final `\d{1,3}` takes one to three characters |
| UniqueIps.MatchIp | remove_duplicate_ips.py:5 | a match at a position ends after it, inside the line |
| MissingIps.Without | missing_ip_list.py:7 | the lines kept are exactly the lines of the first list outside the second |
| ClientIps.FailureFrom | csv_json_verify_IP.py:35-43 | once a row fails, every longer run of the loop fails |
| SwConfig16.RunSettles | SW_Config_1.6.py:100-111 | a command whose wait settles appends its section and the run goes on from the next command with the polls left |
| SwConfig16.Shell.constructor | SW_Config_1.6.py:83-87 | a fresh shell has its poll script and nothing sent yet |

## Left out
- SwConfig16.WaitForPrompt: the source polls forever when the prompt never comes. The model's poll script is finite, so an exhausted script ends as `Stalled`, and the session as `Hung`.
- SwConfig16: the `time.sleep` calls, the 65535-byte `recv` limit and UTF-8 decoding are not modelled. A chunk is the decoded text.
- Sending the e-mails (`send_email`) and writing log files are not modelled. `main` returns the e-mails it would send, and scripts return the text they would log.
- Timestamps: `datetime.now()` and the log timestamps are parameters.
- SSH, netmiko, paramiko, HTTP, socket and subprocess calls are oracles, as described above. The text of the SSH library's exception messages is a parameter.
- Rdap.FetchSchedule: the sleeps are whole seconds. The source's backoff values 2, 4, 8, 16 and 30 are whole numbers, so nothing is lost. `http_get`'s own retries are not part of this model.
- Rdap: `urlparse` is modelled only for the netloc of a URL with a scheme: the text between "//" and the next '/', '?' or '#'. Ports and user information are not separated out.
- Rdap and AwsRanges: JSON documents are datatypes holding the fields the code reads. A document that is not a dict is not modelled.
- Ipv4: the `ipaddress` text parsers are parameters, and IPv6 input counts as a parse failure. Only IPv4 is modelled.
- EnricherInput: `iter_inputs` (CSV sniffing of the input file), `main` and the CSV writer of the enricher are not modelled.
- Whois: the socket exchange is an oracle giving the reply text. Case-insensitive matching, `\d` and `\w` are ASCII only.
- Common.LowerChar: `str.lower` is modelled on ASCII letters only. Other letters are left as they are.
- Common.IsWordChar: Python's Unicode `\w` is modelled as ASCII letters, digits and '_'.
- AclSyntax.AclScript: a try-block that raises after `os.makedirs` (while writing its save file) is taken as not having created SNMP_Output_Files.
- Common.IsDigit: the regular-expression `\d` (remove_duplicate_ips.py, access_session_oui.py, ip_enricher_whois.py) and `int()` of digit text are modelled on ASCII '0'..'9' only. Python 3 also accepts the other Unicode decimal digits there.
- TimeTracker: the tkinter GUI, the `after(1000)` tick scheduling and the Excel export (`save_to_excel`) are not modelled. The sheet read by `load_daily_data` is a list of cell pairs.
- TimeTracker: a task-name cell holding something other than text (a number, a date) is skipped by the model, while the source would count it under that value as its truthy key.
- TimeTracker: number cells are exact reals. Floating-point rounding of the sheet's values is not modelled; `int()` truncates toward zero.
- TimeTracker: the float minutes, hours and net-hours of the totals display are not modelled. Only the per-task h:m:s lines are.
- Quiz: the tkinter GUI and the final percentage, a float, are not modelled. `int()` of the entry is a parameter: the parsed number, or None.
- Quiz: `random.shuffle`'s draws are a parameter of the shuffle.
- CSV tokenising, CSV quoting and JSON parsing are not modelled. Files are their rows, `DictReader` dictionaries or JSON values.
- MacTable: the OUI lookup (`manuf`) is a parameter. How its result prints is the string it returns.
- UniqueIps and IpColumns: the text `print` gives a value is not modelled. IpColumns returns the printed values.
- LowerMac: the example list printed by the script is not modelled; only `convert_to_lowercase` is.
- HostnameIp: ping's exit code and output decoding are folded into the oracle, which gives the output or None.
