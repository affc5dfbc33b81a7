# port-scan-x: a verified model of the scanner's core

port-scan-x is a TCP port scanner with a desktop GUI. The user gives a host and a port
specification such as `20-80,443,8080`. The scanner probes every port with an asynchronous
connect and classifies each probe as `open`, `closed`, `timeout` or `error`. The GUI then
sorts the results by port, summarises them, colours them and can save them as a text report.

This project models the parts of that pipeline that are pure logic, and proves properties
about them:

- the port-specification parser `parse_ports` (`ports.dfy`, module `PortSpec`);
- the host check `validate_ip_or_domain` (`host.dfy`, module `HostName`);
- the classification of one probe, `scan_port`, and the sequential core of `scan_ports`:
  running each task, counting progress, and replacing failed tasks by a sentinel
  (`scanner.dfy`, module `Scanner`), together with `get_common_ports`;
- the display tables `get_port_description` and `get_status_color`, and `format_time`
  (`display.dfy`, module `Display`);
- the result summary `create_summary`, one report line of `save_results_txt`, and the GUI's
  sort by port (`results.dfy`, module `Results`).

Two more modules support these:

- `Text` (`text.dfy`) models the parts of Python's `str` and `int` that the helpers rely on:
  `isspace`, `strip`, `split`, `int(text)`, `str(n)` and the padding of `format` specs. The
  whitespace `int` skips is not quite `isspace`: CPython's `int` refuses the separators
  U+001C..U+001F, which `strip` removes.
- `Wrappers` (`wrappers.dfy`) holds `Option` and `Result`.

An exception the source raises becomes `Err` (or `None`) in the model. An input the source
reads from the outside world becomes a parameter:

- the outcome of a connect attempt is a `ConnectOutcome`;
- what happens to each asyncio task is a `TaskFate`;
- the `ipaddress.ip_address` test is an oracle `isIpAddress: string -> bool`.

## Model

| member | source | states |
|---|---|---|
| `Text.TrimStartSpec` | utils.py:37 | `lstrip` removes exactly the leading run of whitespace: the result is a suffix, does not start with whitespace, and everything removed is whitespace |
| `Text.TrimEndSpec` | utils.py:37 | `rstrip` removes exactly the trailing run of whitespace: the result is a prefix, does not end with whitespace, and everything removed is whitespace |
| `Text.StripBlank` | utils.py:28-29 | `strip` gives the empty string exactly for a blank string |
| `Text.StripEnds` | utils.py:37 | what `strip` leaves has no whitespace at either end |
| `Text.StripSpec` | utils.py:28-34 | `strip` gives the empty string exactly for a blank string; a non-empty result has no whitespace at either end; a string with no whitespace at its ends is unchanged |
| `Text.StripUnchanged` | utils.py:76 | a non-empty string with no whitespace at either end strips to itself and is not blank |
| `Text.Split` | utils.py:34 | `split(d)` always returns at least one piece; without `d` the string is the only piece; with `d` it gives at least two pieces |
| `Text.SplitPieces` | utils.py:34 | no piece of a split contains the separator |
| `Text.JoinSplit` | utils.py:34 | joining the pieces of a split with the separator gives back the string |
| `Text.SplitJoin` | utils.py:34 | splitting a join of separator-free pieces gives back the pieces |
| `Text.ParseGroup` | utils.py:42 | a digit group `int` accepts starts and ends with a digit |
| `Text.DecimalRoundTrip` | utils.py:42 | reading back the digits of `str(n)` gives `n` |
| `Text.ParseIntOfDecimal` | utils.py:53 | `int(str(n)) == n` for every integer, negative ones included |
| `Text.IntTrimStartSpec` | utils.py:42 | the leading whitespace `int` skips is exactly a leading run of the characters it treats as whitespace |
| `Text.IntStripUnchanged` | utils.py:53 | `int` reads a string with no whitespace at its ends as it stands |
| `Text.ParseInt` | utils.py:53 | `int` of text that is only whitespace `int` skips fails |
| `Text.ParseIntRejectsSeparator` | utils.py:42 | text ending in one of the separators U+001C..U+001F is no integer, although `str.isspace` counts them as whitespace |
| `Text.SeparatorExample` | utils.py:37-42 | `"5\x1c"` strips to `"5"`, yet `int` refuses it |
| `Text.DecimalEnds` | utils.py:42 | `str(n)` starts and ends with a digit and holds neither `-` nor `,` |
| `Text.PadLeftStrips` | utils.py:196 | `int` skips the padding of a right-aligned field and reads the string it holds, when that has no whitespace at its ends |
| `Text.PadRightEnd` | utils.py:196 | a left-aligned field ends with the text's last character, or with padding when the text was shorter than the field |
| `PortSpec.RangePorts` | utils.py:45 | `range(start, end + 1)` holds exactly the integers from `start` to `end`, and there are `end - start + 1` of them |
| `PortSpec.RangeToken` | utils.py:39-49 | a range token is accepted exactly when it has two integer pieces with 1 <= start <= end <= 65535, and then it gives that range; three integer pieces give the unpacking error `TooManyBounds`, and every other rejection names the token |
| `PortSpec.PortToken` | utils.py:50-58 | a single-port token is accepted exactly when `int` reads it as a port in [1, 65535], and then it gives just that port; every rejection is `InvalidPort` of the token |
| `PortSpec.Tokens` | utils.py:31-34 | the stripped specification splits into at least one comma-free token, and the tokens joined with commas give it back |
| `PortSpec.TokenPorts` | utils.py:36-58 | no error of a token is the empty-input error, and every error except the unpacking error names the stripped token |
| `PortSpec.TokenPortsInRange` | utils.py:36-58 | an accepted token contributes at least one port, and only ports in [1, 65535] |
| `PortSpec.CollectOk` | utils.py:36-58 | the loop completes exactly when every token's outcome is good |
| `PortSpec.CollectMembers` | utils.py:36-58 | a port is collected exactly when some token contributes it |
| `PortSpec.CollectFirstError` | utils.py:36-58 | the first bad token stops the loop with its own error |
| `PortSpec.AscendingInSpec` | utils.py:60 | the scan over an interval lists the members of the set that lie in it, strictly ascending, once each |
| `PortSpec.SortedPortsSpec` | utils.py:60 | `sorted(list(ports))` of valid ports is strictly ascending and has exactly the ports of the set, once each |
| `PortSpec.Collect` | utils.py:36-58 | no contract of its own: the loop as a function of the tokens' outcomes; `CollectOk`, `CollectMembers` and `CollectFirstError` state when it completes, what it collects and which error stops it |
| `PortSpec.ParsedPorts` | utils.py:9-60 | no contract of its own: the whole of `parse_ports`; `BlankIsRejected`, `ParsedPortsOk`, `ParsedPortsWellFormed` and `ParsedPortsMembers` state what it accepts and returns, and `ParsePorts` computes it with the source's loop |
| `PortSpec.ParsePorts` | utils.py:9-60 | the loop returns what `ParsedPorts` defines: the empty-input error, the first token's error, or the sorted union of the tokens' ports |
| `PortSpec.BlankIsRejected` | utils.py:28-29 | the empty-input error is raised exactly for an empty or whitespace-only specification |
| `PortSpec.CollectedInRange` | utils.py:36-58 | the ports collected from an accepted specification are valid, and there is at least one |
| `PortSpec.ParsedPortsWellFormed` | utils.py:9-60 | an accepted specification gives a non-empty, strictly ascending (so duplicate-free) list of valid ports |
| `PortSpec.ParsedPortsOk` | utils.py:28-58 | a specification is accepted exactly when it is not blank and every token is good |
| `PortSpec.ParsedPortsMembers` | utils.py:31-60 | the result holds exactly the ports that some token contributes |
| `PortSpec.ParsedPortsAreCollected` | utils.py:60 | the sorted list holds exactly the collected set |
| `PortSpec.FirstBadTokenRejects` | utils.py:36-58 | when the first bad token is the `j`-th, the whole specification fails with its error |
| `PortSpec.SinglePortSpec` | utils.py:50-58 | `str(n)` alone gives `[n]` for a valid port and `InvalidPort` otherwise |
| `PortSpec.RangeSpec` | utils.py:39-49 | `str(a)-str(b)` gives every port from `a` to `b` when 1 <= a <= b <= 65535, and `InvalidRange` of the token otherwise |
| `PortSpec.ThreeBounds` | utils.py:42-49 | a range token with three integer pieces gives the unpacking error, not the malformed-range error |
| `PortSpec.TripleTokenPorts` | utils.py:42 | a token with three integer pieces fails on the unpacking, which is not the malformed-range error |
| `PortSpec.TripleRangeRejected` | utils.py:42-49 | a specification `a-b-c` of three integers fails with `TooManyBounds` |
| `PortSpec.TrailingCommaRejected` | utils.py:34-58 | a trailing comma leaves an empty last token, which is rejected as a bad port |
| `PortSpec.RangeAndTwoSpec` | utils.py:9-60 | a range and two valid single ports give exactly those ports, once each |
| `PortSpec.RangeAndTwoCount` | utils.py:45 | a range followed by two larger ports has two more ports than the range |
| `PortSpec.DefaultSpecification` | utils.py:9-60 | the GUI's default `20-80,443,8080` is a range and two ports, and gives 63 ports: 20 to 80, 443 and 8080 |
| `HostName.IsDomainName` | utils.py:90-94 | no contract of its own: the name splits at dots into well-formed labels; `DomainNameOfLabels`, `DomainNameLabels`, `DomainNameEnds` and `TrailingDotRejected` state what it accepts |
| `HostName.DomainPatternMatches` | utils.py:90-94 | no contract of its own: `re.match` of the domain pattern, where `$` also matches before one final line feed; `PatternOnStrippedHost` shows that this makes no difference after `strip` |
| `HostName.DomainNameOfLabels` | utils.py:90-92 | well-formed labels joined with dots form a domain name, and splitting it gives them back |
| `HostName.DomainNameLabels` | utils.py:90-92 | every domain name is its well-formed labels joined with dots |
| `HostName.PatternOnStrippedHost` | utils.py:76-94 | after `strip`, Python's `$` before a final line feed makes no difference to the match |
| `HostName.ValidateHost` | utils.py:63-94 | a blank host is rejected; an IP address is accepted; any other host is accepted exactly when its stripped form is at most 253 characters and matches the domain pattern |
| `HostName.TrailingDotRejected` | utils.py:90-94 | a name ending in a dot never matches the domain pattern |
| `HostName.LeadingHyphenRejected` | utils.py:91 | a name starting with a hyphen never matches the domain pattern |
| `HostName.DomainNameEnds` | utils.py:91 | a domain name starts and ends with a letter, digit or hyphen |
| `HostName.DomainNameAccepted` | utils.py:73-94 | a domain name of at most 253 characters is accepted, whatever the IP test says |
| `HostName.DottedNumbersAccepted` | utils.py:79-94 | four dotted numbers below 1000, such as `999.1.1.1`, are accepted even when they are no IP address |
| `Scanner.ScanPort` | scanner.py:19-40 | the port is kept; the status is `open`, `timeout`, `closed` or `error` exactly for a connect, a timeout, a refusal or any other failure; a time is present exactly when the port is open, and it is the measured one |
| `Scanner.ClassificationRoundTrip` | scanner.py:19-40 | the connect outcome can be read back from the probe result |
| `Scanner.ClassificationInjective` | scanner.py:19-40 | different outcomes on the same port give different results |
| `Scanner.Entry` | scanner.py:74-88 | each entry is the probe's tuple or the sentinel `(0, "error", None)`; the tuple when the probe and callback returned; the sentinel when the task raised first or the callback raised |
| `Scanner.TaskValue` | scanner.py:66-71 | no contract of its own: what the task for a port gives `gather`; `RunTask` computes it step by step, and `Entry` states what the scan reports from it |
| `Scanner.TaskEvents` | scanner.py:66-71 | no contract of its own: the probe event and then the callback event of one task; `RunTask` produces them, and `ProgressFollowsProbe` and `ProbeFollowedByProgress` state their order over a scan |
| `Scanner.RunTask` | scanner.py:66-71 | a task gives what `TaskValue` defines, produces the probe event and then the callback event, and calls the callback once when there is one and the probe returned |
| `Scanner.Gather` | scanner.py:74-77 | one gathered value per port, in order, each as `TaskValue` defines; the events are the tasks' events in order; the callback count is the number of probes that returned |
| `Scanner.Filter` | scanner.py:80-88 | one result per gathered value, in order: the tuple itself, or the sentinel for an exception |
| `Scanner.ScanPorts` | scanner.py:43-88 | one result per requested port, in order, each the `Entry` for its port; the events and the progress count are those of the tasks |
| `Scanner.EventsWithoutCallback` | scanner.py:69-70 | without a callback, every event of a scan is a returned probe |
| `Scanner.ProgressCallsCount` | scanner.py:69-70 | the callback is called once per probe that returned, and never without a callback |
| `Scanner.ProgressFollowsProbe` | scanner.py:68-70 | every callback call comes right after a probe returned |
| `Scanner.ProbeFollowedByProgress` | scanner.py:68-70 | with a callback, every returned probe is followed right away by a callback call |
| `Scanner.CommonPorts` | scanner.py:110-117 | no contract of its own: the list of common ports; `CommonPortsSpec` and `Display.CommonPortsDescribed` state its properties |
| `Scanner.CommonPortsSpec` | scanner.py:110-117 | the common ports are 23 distinct valid ports in strictly ascending order |
| `Display.PortDescription` | utils.py:136-172 | a port in the table gets its name; any other gets `"Port <n>"` |
| `Display.DescriptionNamesUnknownPort` | utils.py:146-172 | a description starts with `"Port "` exactly when the port is not in the table, and then the rest reads back as the port |
| `Display.TableNamesAreNotFallbacks` | utils.py:146-170 | no name in the table looks like a fallback description |
| `Display.CommonPortsDescribed` | utils.py:146-170 | the description table names exactly the common ports |
| `Display.StatusColor` | utils.py:242-259 | a status in the table gets its colour; any other gets `#000000` |
| `Display.StatusColorsDistinct` | utils.py:252-259 | the table has exactly the four statuses, with four different colours, none of them the default |
| `Display.ProbeResultsAreColoured` | utils.py:242-259 | every status a probe reports is shown in one of the table's colours |
| `Display.FormatTime` | utils.py:222-239 | `None` gives `"N/A"`; below one second there is a text |
| `Display.FormatTimeReadsBack` | utils.py:235-236 | below one second the text is a number followed by `ms`, and the number reads back as the time |
| `Display.NotAvailableIsNoTime` | utils.py:232-236 | `"N/A"` is not the text of any time below one second |
| `Results.RowOf` | main_gui.py:382-388 | the GUI's dictionary keeps the probe's port and status, and stores `None` exactly when there is no time |
| `Results.RowsOf` | main_gui.py:382-389 | one dictionary per probe result, in the same order |
| `Results.InitialSummary` | utils.py:272-278 | the summary starts with the keys `total`, `open`, `closed`, `timeout` and `error` |
| `Results.InitialSummaryValues` | utils.py:272-278 | the summary starts with the total and a zero for each status |
| `Results.TallyCount` | utils.py:280-283 | counting the rows adds, to each counted key, the number of rows with that status |
| `Results.SummaryAsWritten` | utils.py:262-285 | the summary has its five keys and no others |
| `Results.CreateSummary` | utils.py:262-285 | the loop computes `SummaryAsWritten` |
| `Results.SummaryAsWrittenCounts` | utils.py:272-283 | the four status counts are exact, and the total is the number of rows plus the rows whose status is `"total"` |
| `Results.TotalStatusCounterexample` | utils.py:280-283 | one row with status `"total"` gives a total of 2 as written, and 1 as intended |
| `Results.Summarize` | utils.py:262-285 | the intended summary has the same five keys |
| `Results.SummarizeCounts` | utils.py:272-283 | in the intended summary, the total is the number of rows and each status count is exact |
| `Results.MissingStatusIsError` | utils.py:281 | a result without a status adds one to the `error` count |
| `Results.StatusCountsSum` | utils.py:280-283 | the four counts plus the unrecognised rows make up all the rows; none is unrecognised exactly when every status is one of the four |
| `Results.SummarizeBounds` | utils.py:272-283 | the four counts add up to at most the total, and to exactly the total when every status is one of the four |
| `Results.AsWrittenIsIntendedWithoutTotalStatus` | utils.py:262-285 | when no status is `"total"`, the summary as written is the intended one |
| `Results.SortByPort` | main_gui.py:391 | no contract of its own: the sort by port, as an insertion sort; `SortByPortSorted`, `SortByPortElements` and `SortByPortCount` state that it orders, only reorders and keeps the counts |
| `Results.SortByPortSorted` | main_gui.py:391 | the sort by port orders the rows by port |
| `Results.SortByPortElements` | main_gui.py:391 | the sort by port only reorders the rows (same multiset) |
| `Results.SortByPortCount` | main_gui.py:391 | the sort keeps every status count |
| `Results.Aggregate` | main_gui.py:378-391 | no contract of its own: the GUI's sorted rows and their summary as written (main_gui.py:423); `AggregateSpec` states what they are |
| `Results.AggregateSpec` | main_gui.py:378-391 | for probe results, the GUI's rows are sorted and a permutation of the results; its summary is the intended one, with the total and each count as in the results |
| `Results.ScanEntriesRecognised` | scanner.py:74-88 | every entry of a scan has one of the four statuses |
| `Results.FormatLineAsWritten` | utils.py:190-199 | no contract of its own: one report line as the code stands; `UnconnectedProbeShowsNone` shows its `" (Nonems)"` |
| `Results.FormatLine` | utils.py:190-199 | no contract of its own: one report line as intended; `ProbeLineShowsTimeWhenOpen` and `OpenProbeLine` state when and how it shows a time |
| `Results.LineHead` | utils.py:196 | a report line starts with `"Port "` and then the port right-aligned in five columns |
| `Results.LinePortReadsBack` | utils.py:194-196 | the port column of a line reads back as the port, for every port from 0 (the sentinel's) to 65535 |
| `Results.LineEnding` | utils.py:196-198 | as intended, a line ends in `)` exactly when a time is written |
| `Results.UnconnectedProbeShowsNone` | utils.py:193-198 | as written, the line of every probe from the GUI that did not connect ends in `" (Nonems)"` |
| `Results.ProbeLineShowsTimeWhenOpen` | utils.py:190-199 | as intended, a line shows a time exactly for a probe that connected |
| `Results.OpenProbeLine` | utils.py:196-198 | as intended, the line of an open port is its head followed by `" (<ms>ms)"`, and those digits read back as the measured time |

## Left out

- `resolve_hostname`, `validate_host`, `banner_grab` and `save_results_json`: they only make name-service, network or file calls, so there is no logic to model.
- `parse_cidr` (utils.py:129-133): a thin wrapper over the `ipaddress` standard module, whose network grammar is not modelled, like `ip_address` in `HostName.ValidateHost`.
- save_results_txt: the file, the header lines and the `datetime.now()` stamp are left out; only the line written per result is modelled (`FormatLineAsWritten`, `FormatLine`).
- main_gui.py: only the dictionaries and the sort of `process_results` are modelled (`RowOf`, `Aggregate`). The widgets, event handlers and threads are left out. `Row` has no field for the `description` key the GUI stores (main_gui.py:387): nothing modelled reads it, and the report line computes the description again (utils.py:194).
- Display.FormatTime: the branch for one second or more formats a float with `{:.1f}`. The model does not cover floating point there and returns `None`.
- Scanner.ScanPorts: the tasks run one after another in list order. The semaphore, the concurrency limit and the interleaving of asyncio tasks are left out, so the events are ordered task by task.
- Scanner.ScanPort: the connect attempt, the timeout and the measured time are inputs (`ConnectOutcome`); the rounding of `time.time()` differences is not modelled.
- HostName.ValidateHost: `ipaddress.ip_address` is an oracle parameter; the IPv4 and IPv6 grammars are not modelled.
- PortSpec.RangeToken: the unpacking error for a third integer piece is `TooManyBounds` with no token, because the re-raised "too many values to unpack" message names none (utils.py:42, 49).
- PortSpec.TokenPorts: the unpacking error for a third integer piece is `TooManyBounds` with no token, because the re-raised "too many values to unpack" message names none (utils.py:42, 49).
- Text.ParseInt: only ASCII digits are modelled; Python's `int` also accepts other Unicode decimal digits.
- Text.ParseInt: the model has no 4300-digit limit (leading zeros count towards it). `int` refuses a longer digit string with a message that has no "invalid literal" in it. The source then fails on such a token where the model may accept it. A single port fails as `InvalidPort`, because `except ValueError` catches every error (utils.py:57-58). A range bound fails with the limit message re-raised unchanged (utils.py:46-49). `PortSpec.PortToken` and `PortSpec.RangeToken` return `Ok` or `InvalidRange` for such tokens instead.
- Results.Row: `status` is an `Option`, so a missing `status` key and a key holding `None` are the same row, and the model counts both as `error`. In the source only the missing key gives `"error"`; `None` is no key of the summary, so `create_summary` counts such a row nowhere (utils.py:281-282). No row the GUI builds has either shape: main_gui.py:385 always stores the probe's status string.
- Results.Row: every row has a port, because `save_results_txt` and the sort read `result['port']` unguarded; a row without a port is not modelled.
- Results.CreateSummary: its `ensures` ties the result to `SummaryAsWritten`, and the counts are proved about that function (`SummaryAsWrittenCounts`).
- Results.SortByPort: it is a stable insertion sort, like Python's `list.sort`. Stability is not proved; sortedness, permutation and counts are.

## Findings

| source | as written | input that shows it | evidently intended | confidence | as-written member | corrected member |
|---|---|---|---|---|---|---|
| utils.py:280-283 | `status in summary` is also true for the key `"total"`, so a result whose status is `"total"` adds one to the total | `[{"port": 80, "status": "total"}]` gives `"total": 2` for one result | only the four statuses are counted; the total stays the number of results | not executed | `Results.TotalStatusCounterexample` | `Results.SummarizeCounts` |
| utils.py:193-198 | `result.get('time_ms', 'N/A')` returns `None` when the key holds `None`, and `None != 'N/A'`, so the line ends in `" (Nonems)"` | a closed port from the GUI: `{"port": 22, "status": "closed", "time_ms": None}` | no time is written when there is none | not executed | `Results.UnconnectedProbeShowsNone` | `Results.ProbeLineShowsTimeWhenOpen` |

`SummaryAsWritten` and `FormatLineAsWritten` model the code as it stands. `Summarize` and
`FormatLine` are the intended versions. The GUI's aggregate (`Aggregate`) uses the code as
written, and `AggregateSpec` shows that this agrees with `Summarize` for the four statuses a
probe reports.
