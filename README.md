# wsock-trace: firewall event monitor and trace helpers, modelled in Dafny

wsock-trace is a Winsock tracing DLL. It wraps the socket API and logs each call with its arguments and result. Its firewall part subscribes to the Windows Filtering Platform's network events and writes each event as a few text lines.

This project models the firewall monitor's core:
- the entry-point table and its load rule;
- the negotiation of the event-subscription API level, and the orderly or forced stop;
- the two lookup caches, one for filter ids and one for security identifiers;
- the per-event decision to emit an event or count it as ignored, and the checks behind it;
- the bounded line buffer that the text is assembled in, including long-line wrapping.

It also models these helpers from the tracing DLL:
- the `WSAStartup`/`WSACleanup` nesting counter;
- the traffic counters of `recv`, `recvfrom`, `send` and `WSASend`;
- the hex, pointer, socket and address texts;
- the `WSAIoctl` direction tag and the `WSAWaitForMultipleEvents` result label;
- the test program's wildcard matcher and test selection.

Modules:

| module | file | what it holds |
|---|---|---|
| `Common` | `common.dfy` | `Option`, 32/64-bit constants, hex and decimal text with their readers, case-insensitive comparison, C strings |
| `TestDriver` | `test_driver.dfy` | `name_match` against a reference glob semantics, `run_test`, `ptr_or_error32/64` and the test vectors |
| `WsockTrace` | `wsock_trace.dfy` | the startup counter, traffic counters, `count_wsabuf`, pointer/socket/address texts, the ioctl tag, the wait label |
| `LineBuffer` | `line_buffer.dfy` | `fw_buf` as a class over a 2000-character array, and `fw_add_long_line` against a recursive wrapping function |
| `FwApi` | `fw_api.dfy` | `fw_load_funcs`, `fw_monitor_subscribe` against a closed-form rule, `fw_monitor_stop` |
| `FwCache` | `fw_cache.dfy` | `lookup_or_add_filter` and `lookup_or_add_SID`, as functions and as classes over append-only lists |
| `FwEvent` | `fw_event.dfy` | `volume_to_path`, `get_ports`, the address/program/user/package checks, `fw_check_ignore`, `fw_event_callback` |

Native services are parameters of the model:
- the address and port text;
- the SID string and account lookups;
- the filter display-name lookup;
- the subscribe return codes;
- whether each entry point loaded;
- the last-error text.

Where the source's own comments promise more than its code does, the model follows the code:
- **Subscribe never steps down.** The doc comment of `fw_monitor_subscribe` says it tries all available `FwpmNetEventSubscribeX()` functions, starting with the one at or above the configured level (src/firewall.c:1961-1963). The code only ever calls the entry point for exactly the configured level. A missing entry point at or below that level fails with `ERROR_BAD_COMMAND`, and a lower level is never tried (`FwApi.NoFallback`).
- **Events with no flags are emitted.** The comment before the checks says nothing is printed when both `X_printed` results are `FALSE` (src/firewall.c:3776-3782). Each check that finds its part of the header missing answers `TRUE`, so an event with every "is-set" flag clear is emitted (`FwEvent.BareEventEmitted`). The same holds for an event whose only address is excluded but which carries no program, user or package.
- **The address never decides on its own.** The code clears the address result unless the program and user checks passed too (src/firewall.c:3879-3885). As a result, acceptance depends only on the program, user and package checks (`FwEvent.AcceptanceIgnoresAddress`).
- **Unhandled event types move no counter.** The callback returns at the branch marked "Impossible" without touching either counter (src/firewall.c:3858-3859).
- **Separator runs are halved, not collapsed.** `fw_add_long_line` is commented "Drop multiple break-chars or '-'", but a dropped separator restarts the run, so only every second separator of a run is dropped (src/firewall.c:1590-1595; `LineBuffer.SeparatorRunHalved`, `LineBuffer.SeparatorRunAlternates`).
- **An over-long word ends the wrapping.** `left--` on a `size_t` wraps from 0, so once a word longer than the room left has been copied, no later separator breaks the line (src/firewall.c:1599; `LineBuffer.NoBreakAfterOverrun`, `LineBuffer.OverrunLineUnbroken`).

The `show_user` check is listed under "## Findings". `FwEvent.Callback` keeps the rule as written.

## Model

| member | source | states |
|---|---|---|
| Common.IncU32 | src/firewall.c:1423-1424 | a `DWORD` counter increment stays below 2^32, wraps to 0 exactly from 2^32-1 and otherwise adds one |
| Common.ToInt32 | src/wsock_trace.c:743-750 | the `(int)` cast of a socket value lies in the `int` range and is congruent to it modulo 2^32 |
| Common.FillHex | src/wsock_trace.c:714-730 | the shift-by-4 loop leaves `"0x"` followed by the `2*size` upper-case hex digits of `x`, most significant first, and changes nothing after them |
| Common.ParseHexOfHex | src/wsock_trace.c:714-730 | reading the written digits back gives the value whenever it fits in them |
| Common.ParseDecimalOfDecimal | src/wsock_trace.c:743-750 | the decimal digits `_itoa` writes for a non-negative value read back as that value |
| Common.UpToNul | src/firewall.c:1545-1555 | the C string of a buffer is its longest NUL-free prefix, and a NUL-free text is its own C string |
| TestDriver.DropStars | src/test.c:941-945 | collapsing a star run leaves a suffix of the wildcard that does not start with `*` |
| TestDriver.NameMatchIsMatches | src/test.c:930-966 | `name_match` agrees on every input with the reference glob semantics `Matches` (case-insensitive characters, `*` for any run) |
| TestDriver.StarStar | src/test.c:941-945 | in the reference semantics, two leading stars match exactly what one does |
| TestDriver.LeadingStars | src/test.c:941-958 | a wildcard starting with `*` matches iff the wildcard after the star run matches some suffix of the string |
| TestDriver.AnySuffixMatchMeans | src/test.c:952-958 | the recursive scan over the string's suffixes succeeds iff some non-empty suffix matches |
| TestDriver.StarMatchesEverything | src/test.c:947-949 | the wildcard `*` matches every name |
| TestDriver.EmptyWildcard | src/test.c:938-939 | the empty wildcard matches only the empty name |
| TestDriver.StarRunIsOneStar | src/test.c:941-945 | prefixing a star to a wildcard that starts with one does not change what it matches |
| TestDriver.StarFreeMatch | src/test.c:960-963 | a wildcard without `*` matches exactly the names equal to it ignoring case |
| TestDriver.TestTableChecks | src/test.c:144-183 | every table entry is named `test_` plus a name, and the last one is `test_WSACleanup`: the two `assert`s of `run_test` hold |
| TestDriver.SelectedMembers | src/test.c:185-200 | a test is run iff it is in the table and its name after `test_` matches the wildcard |
| TestDriver.StarSelectsAll | src/test.c:177-203 | the default wildcard `*` runs every test, in table order |
| TestDriver.RunTest | src/test.c:177-203 | the loop runs exactly the selected tests, in table order, and returns how many it ran |
| TestDriver.PtrOrError32 | src/test.c:838-856 | the result is `"0x"` and 8 hex digits of `x`, which read back as `x` |
| TestDriver.PtrOrError64 | src/test.c:858-876 | the result is `"0x"` and 16 hex digits of `x`, which read back as `x` |
| TestDriver.ReadCString | src/test.c:855 | returning the zeroed buffer yields exactly the written text, since the byte after the digits is NUL |
| TestDriver.PtrOrError32Vector | src/test.c:878-881 | `ptr_or_error32(0x11223344)` gives the digits `11223344` |
| TestDriver.PtrOrError32bVector | src/test.c:883-886 | `ptr_or_error32(0x11223345)` gives the digits `11223345` |
| TestDriver.PtrOrError64Vector | src/test.c:888-891 | `ptr_or_error64(0x11223344AABBCCDD)` gives the digits `11223344AABBCCDD` |
| WsockTrace.StartupState.constructor | src/wsock_trace.c:47-48 | the counter starts at 0 and not cleaned up |
| WsockTrace.StartupState.Startup | src/wsock_trace.c:763-765 | `WSAStartup` raises the count by one unless it is `INT_MAX`, and clears `cleaned_up`, keeping the count within `0..INT_MAX` |
| WsockTrace.StartupState.Cleanup | src/wsock_trace.c:786-790 | `WSACleanup` lowers a positive count by one and sets `cleaned_up` iff it reaches 0; at 0 nothing changes |
| WsockTrace.StartupCount | src/wsock_trace.c:763-764 | a startup leaves the count unchanged exactly at `INT_MAX` |
| WsockTrace.CleanupCount | src/wsock_trace.c:786-790 | a cleanup leaves the count unchanged exactly at 0 |
| WsockTrace.BalancedStartupCleanup | src/wsock_trace.c:756-793 | `k` startups then `k` cleanups restore the count when no saturation occurs |
| WsockTrace.CleanupsFrom | src/wsock_trace.c:786-790 | `k` cleanups from `n + k` leave `n` |
| WsockTrace.CleanupsSaturate | src/wsock_trace.c:786-790 | at least as many cleanups as the count bring it to 0 and no lower |
| WsockTrace.ReceivesPartition | src/wsock_trace.c:1489-1495 | every receive counts either as an error or as a success, never both |
| WsockTrace.CountersAdd | src/wsock_trace.c:1489-1495 | each counter of a concatenated call log is the sum of the counters of its parts |
| WsockTrace.CountersSeparate | src/wsock_trace.c:1586-1589 | receives never move the send counters |
| WsockTrace.Counters.constructor | src/wsock_trace.c:1489-1495 | all counters start at 0 with an empty call log |
| WsockTrace.Counters.Recv | src/wsock_trace.c:1489-1495 | `recv` adds a non-negative result to the peeked or received bytes by `MSG_PEEK`, counts a negative one as an error, and moves nothing else |
| WsockTrace.Counters.RecvFrom | src/wsock_trace.c:1534-1553 | `recvfrom` as written: the same byte and error counts as `recv`, and the would-block counter never moves |
| WsockTrace.Counters.RecvFromIntended | src/wsock_trace.c:1549-1553 | corrected `recvfrom`: the would-block counter moves exactly for a traced failure whose last error is `WSAEWOULDBLOCK` |
| WsockTrace.Counters.Send | src/wsock_trace.c:1586-1589 | `send` adds a non-negative result to the sent bytes and counts a negative one as an error |
| WsockTrace.Counters.WsaSend | src/wsock_trace.c:1839-1842 | `WSASend` counts `SOCKET_ERROR` as an error and otherwise adds the `count_wsabuf` total |
| WsockTrace.CountWsabuf | src/wsock_trace.c:1821-1828 | the loop sums the lengths of the first `(int)num_bufs` buffers, and gives 0 for a NULL array or a count of 0 |
| WsockTrace.UintPtrHexval | src/wsock_trace.c:714-730 | `uint_ptr_hexval` writes `"0x"` and the `2*sizeof(UINT_PTR)` hex digits of the value, 8 in a 32-bit build and 16 under `WIN64`, and nothing else |
| WsockTrace.PtrOrError | src/wsock_trace.c:732-741 | NULL gives the error text; any other pointer gives `"0x"` and its 8 or 16 hex digits, by build, which read back as the pointer |
| WsockTrace.SocketOrErrorReadsBack | src/wsock_trace.c:743-750 | in either build, a socket value up to `INT_MAX` is printed as decimal digits that read back as the value |
| WsockTrace.SocketOrErrorCases | src/wsock_trace.c:743-750 | the all-ones word of the build's `SOCK_RC_TYPE` (`INVALID_SOCKET`) gives the error text; any other value is printed as its `(int)` cast, with a minus sign exactly when that is negative; 2^32-1 is the error in a 32-bit build but prints `-1` under `WIN64` |
| WsockTrace.Swap16Involution | src/wsock_trace.c:683 | swapping the bytes of a port twice gives it back |
| WsockTrace.SockaddrStrPort | src/wsock_trace.c:666-697 | the result is NULL exactly for a family other than `AF_INET` (2) and `AF_INET6` (23) |
| WsockTrace.SockaddrPortReadsBack | src/wsock_trace.c:666-697 | for IPv4 and IPv6 the text after the last colon reads back as the host-order port |
| WsockTrace.SockaddrIn4ReadsBack | src/wsock_trace.c:676-684 | an IPv4 text splits at its dots and colon into five fields that read back as the four address bytes and the host-order port |
| WsockTrace.SockaddrStr2 | src/wsock_trace.c:652-659 | `sockaddr_str2` falls back to the generic text exactly when `sockaddr_str_port` gives NULL |
| WsockTrace.IoctlTagAsWritten | src/wsock_trace.c:1001-1008 | as written, the tag is never `" (R)"` or `" (W)"`: any in or out bit gives `" (RW)"` |
| WsockTrace.IoctlTagIntendedDirections | src/wsock_trace.c:1001-1008 | the corrected tag is `(RW)`, `(R)`, `(W)` or `(N)` exactly by the in/out/void bits, and matches the original only when both or neither direction bit is set |
| WsockTrace.WaitLabelIndex | src/wsock_trace.c:2168-2173 | a signalled event is labelled `WSA_WAIT_EVENT_0` with `", all"` or its index, which reads back as the result |
| WsockTrace.WaitLabelUnknown | src/wsock_trace.c:2160-2174 | any other result below `WSA_WAIT_FAILED` is labelled `Unknown` with no extra text |
| LineBuffer.FwBuffer.constructor | src/firewall.c:1509-1511 | the buffer starts empty with 1999 characters of room |
| LineBuffer.FwBuffer.Reset | src/firewall.c:1539-1543 | `fw_buf_reset` empties the buffer and restores the room, leaving the output alone |
| LineBuffer.FwBuffer.AddC | src/firewall.c:1529-1537 | `fw_buf_addc` appends the character and returns 1 iff more than one place is left, else returns 0 and changes nothing |
| LineBuffer.FwBuffer.Add | src/firewall.c:1513-1527 | `fw_buf_add` returns 0 when the room is shorter than the format, else appends the formatted text, NUL-terminates it and returns its length |
| LineBuffer.FwBuffer.Flush | src/firewall.c:1545-1555 | `fw_buf_flush` emits the buffer's C string iff it is non-empty, then resets |
| LineBuffer.FwBuffer.AddSpaces | src/firewall.c:1581-1582 | the indent loop appends the spaces, cut at the buffer's capacity |
| LineBuffer.FwBuffer.AddBreak | src/firewall.c:1578-1582 | a line break adds the break character (unless it is a space), a newline and the indent, cut at the capacity |
| LineBuffer.FwBuffer.AddLongLine | src/firewall.c:1557-1602 | `fw_add_long_line` appends exactly the wrapped text `LongLine`, cut at the buffer's capacity |
| LineBuffer.Reload | src/firewall.c:1559 | `screen_width - indent` as a `size_t`: equal to the difference when that is non-negative and fits |
| LineBuffer.DecU64 | src/firewall.c:1599 | `left--` on a `size_t` stays in range, decrements every positive value and wraps 0 to 2^64-1 |
| LineBuffer.NextBreak | src/firewall.c:1569-1574 | the `strchr` for the next break character finds its first occurrence after `c`, or the end of the text |
| LineBuffer.LongLine | src/firewall.c:1557-1602 | the wrapped text always ends in a newline |
| LineBuffer.WrapKeepsWords | src/firewall.c:1562-1600 | wrapping only inserts and drops separators, newlines and indentation: the other characters come out unchanged and in order |
| LineBuffer.BreaksAreIndented | src/firewall.c:1576-1585 | in text without newlines, every newline the wrap inserts is followed by `indent` spaces |
| LineBuffer.FittingTextUnchanged | src/firewall.c:1562-1600 | text that fits in the remaining room and has no doubled separators is copied unchanged |
| LineBuffer.FittingLine | src/firewall.c:1557-1602 | a line that fits in the screen width comes out as itself plus a newline |
| LineBuffer.SeparatorRunHalved | src/firewall.c:1590-1595 | with room to spare, a run of `n` separators comes out as its first, third, fifth … separator, `(n+1)/2` of them, followed by the next character |
| LineBuffer.SeparatorRunAlternates | src/firewall.c:1590-1595 | a dropped separator restarts the run, so `--` becomes `-` but `---` becomes `--` |
| LineBuffer.NoBreakWhileRoom | src/firewall.c:1568-1577 | while more columns are left than the rest of the text is long, no separator starts a new line |
| LineBuffer.NoBreakAfterOverrun | src/firewall.c:1597-1600 | once `left--` has wrapped from 0, the rest of the line is never broken |
| LineBuffer.OverrunLineUnbroken | src/firewall.c:1557-1602 | on a 3-column line `abcd e f` comes out unbroken, although both later separators would have broken it |
| FwApi.TableLayout | src/firewall.c:1182-1212 | the table has 29 entries, 20 needed; entries 5 to 9 are `FwpmNetEventSubscribe0..4`, and 10 and 12 are the unsubscribe and engine-close calls |
| FwApi.CountTrueZero | src/firewall.c:1753-1757 | no entry is counted iff none is loaded |
| FwApi.FwState.constructor | src/firewall.c:1182-1212 | nothing is loaded, no handle is open and no native call has been made |
| FwApi.FwState.CountLoaded | src/firewall.c:1753-1757 | the loop counts the loaded entry points |
| FwApi.FwState.LoadFuncs | src/firewall.c:1747-1775 | loads the table only when nothing is loaded yet, succeeds iff at least 20 entries are loaded, and sets `FW_FUNC_ERROR` on failure |
| FwApi.FwState.SubscribePresent | src/firewall.c:1967-2004 | the five subscribe entry points, by level |
| FwApi.FwState.MonitorSubscribe | src/firewall.c:1965-2008 | success, error code and the new event handle are those of `Subscribe`; the event handle is set only on success |
| FwApi.FwState.MonitorStop | src/firewall.c:2104-2123 | makes exactly the native calls of `StopCalls` and leaves both handles invalid |
| FwApi.StopCallsFacts | src/firewall.c:2104-2123 | a second stop makes no call; a forced stop only closes handles and an orderly one never does; at most two calls |
| FwApi.WalkBelow | src/firewall.c:2000-2004 | below the configured level, the walk only looks for an absent entry point |
| FwApi.SubscribeMeetsSpec | src/firewall.c:1965-2008 | the five `SET_API_CALLBACK` steps decide exactly what the closed-form rule `SubscribeSpec` states |
| FwApi.SubscribeRules | src/firewall.c:1965-2008 | an illegal level fails with `ERROR_INVALID_DATA` and calls nothing; only the configured level is ever called; success iff present and it returns `ERROR_SUCCESS`; a failing call's error becomes `ERROR_BAD_COMMAND` iff a lower entry point is absent |
| FwApi.NoFallback | src/firewall.c:1967-1991 | with the configured level absent, a present lower level is not tried |
| FwCache.IndexOf | src/firewall.c:3223-3229 | the scan finds the first entry with the key, or reports that none has it |
| FwCache.LookupFilterRules | src/firewall.c:3213-3242 | id 0 gives the `"NULL"` entry; a cached id gives its entry; an unknown id appends one entry named `"?"` unless resolution succeeds; ids stay distinct and non-zero |
| FwCache.LookupFilterIdempotent | src/firewall.c:3213-3242 | a second lookup of the same id returns the first result without resolving again |
| FwCache.FilterCache.constructor | src/firewall.c:1788 | the filter cache starts empty |
| FwCache.FilterCache.Find | src/firewall.c:3223-3229 | the loop returns the index the first-match scan gives |
| FwCache.FilterCache.LookupOrAdd | src/firewall.c:3213-3242 | the cache and the entry are those of `LookupFilter`, and the native resolver is called exactly for a new non-zero id |
| FwCache.LookupSidRules | src/firewall.c:3664-3686 | a cached SID gives its entry and leaves the list; a new one appends exactly one entry with its string and account; SIDs stay distinct |
| FwCache.LookupSidIdempotent | src/firewall.c:3664-3686 | a second lookup of the same SID hits, whatever the resolvers would answer then |
| FwCache.SidCache.constructor | src/firewall.c:1787 | the SID cache starts empty |
| FwCache.SidCache.Find | src/firewall.c:3670-3675 | the `EqualSid` loop returns the index the first-match scan gives |
| FwCache.SidCache.LookupOrAdd | src/firewall.c:3664-3686 | the cache and the entry are those of `LookupSid`, and the native resolvers are called exactly for a new SID |
| FwEvent.VolumeToPathMapped | src/firewall.c:3529-3547 | a `\Device\HarddiskVolumeN\...` path becomes drive `'a'+N`, a colon and the rest of the path |
| FwEvent.VolumeToPathIdempotent | src/firewall.c:3529-3547 | mapping a mapped path changes nothing |
| FwEvent.VolumeToPathAnyCase | src/firewall.c:3533-3535 | the device prefix is recognised whatever its case |
| FwEvent.GetPorts | src/firewall.c:3383-3402 | the port text is empty exactly for protocols other than TCP and UDP |
| FwEvent.GetPortsReadsBack | src/firewall.c:3383-3402 | for TCP and UDP the two port fields read back out of the text: each is `-` exactly when its flag is clear, and otherwise the text of that port |
| FwEvent.AddressesV4 | src/firewall.c:3407-3464 | the IPv4 check prints a line iff the header is IPv4 with its version flag, has a local or remote address, and neither address is excluded |
| FwEvent.AddressesV6 | src/firewall.c:3469-3522 | the same rule for IPv6 |
| FwEvent.AddressChecksExclusive | src/firewall.c:3864-3867 | no event passes both address checks |
| FwEvent.AddressOrder | src/firewall.c:3455-3462 | an inbound event is printed remote -> local, an outbound one local -> remote |
| FwEvent.Basename | src/firewall.c:3570 | the base name is the longest suffix of the path without a slash: a slash-free suffix that is the whole path or follows a slash |
| FwEvent.AppPrinted | src/firewall.c:3552-3590 | without an `appId` the check passes; without `show_all` it passes iff the full or base name equals `fw_module` ignoring case; with it, iff neither name is excluded |
| FwEvent.UserShownHidesOwnUser | src/firewall.c:3700-3703 | as written, with `show_user` the logged-on user is refused and every other account passes |
| FwEvent.UserShownIntendedOnlyOwnUser | src/firewall.c:3700-3701 | the commented rule passes exactly the logged-on user under `show_user` and differs from the code's rule on that user |
| FwEvent.VerdictsKeepCache | src/firewall.c:3691-3729 | the user and package checks only append to the SID cache, at most one entry each, keeping SIDs distinct |
| FwEvent.DirectionIn | src/firewall.c:3788-3851 | capability events are inbound; a classify event is inbound unless its direction is `OUT` or `OUTBOUND` |
| FwEvent.CallbackFromChecks | src/firewall.c:3864-3895 | once the checks are known, the event is emitted iff they are accepted, and the SID cache is the one after them |
| FwEvent.AcceptanceIgnoresAddress | src/firewall.c:3881-3887 | acceptance is program or user or package; flipping the address result never changes it |
| FwEvent.CallbackRules | src/firewall.c:3765-3895 | a gated version or an unhandled type leaves the cache; an event is emitted iff the program, user or package check passes; an event without an `appId` flag is always emitted |
| FwEvent.BareEventEmitted | src/firewall.c:3864-3895 | a handled event with no flag set is emitted |
| FwEvent.CheckIgnoredCases | src/firewall.c:3038-3045 | without `show_all`, only the two drop types pass `fw_check_ignore` |
| FwEvent.Monitor.constructor | src/firewall.c:1423-1424 | both counters start at 0 with an empty SID cache |
| FwEvent.Monitor.CheckIgnore | src/firewall.c:3038-3045 | answers `CheckIgnored` and counts an ignored event with a wrapping `DWORD` increment |
| FwEvent.Monitor.UserId | src/firewall.c:3691-3708 | the verdict and the new cache are those of `UserVerdict` |
| FwEvent.Monitor.PackageId | src/firewall.c:3713-3729 | the verdict and the new cache are those of `PackageVerdict`: it passes iff the SID has a string form, and that is not `S-1-0-0` unless `show_all` |
| FwEvent.Monitor.RunChecks | src/firewall.c:3864-3871 | the four checks run in the code's order, threading the SID cache from user to package |
| FwEvent.Monitor.EventCallback | src/firewall.c:3750-3904 | the outcome and cache are those of `Callback`; an emitted event moves `fw_num_events`, a gated or rejected one `fw_num_ignored`, and an unhandled type neither |

## Left out

- I/O: `trace_puts`, `TRACE`, `WSTRACE` and the text of most `fw_buf_add` lines are not modelled. The flushed buffer is kept as a list of strings.
- Concurrency: `ENTER_CRIT`/`LEAVE_CRIT` and the asynchronous delivery of events are not modelled.
- Native calls and their outputs are parameters: entry-point loading, subscribe results, `inet_ntop`, `get_port`, `ConvertSidToStringSid`, `lookup_account_SID`, `FwpmFilterGetById0`, `ws_strerror`.
- `fw_check_sizes`, the time and country strings, the layer and filter-rule lines, reauthorisation and effective names are not modelled. Neither are the per-event text of capability and classify records.
- Exclusion lists (`exclude_list_get`) are modelled as exact set membership. Their matching rules live outside these files.
- `basename` is not part of this model. `FwEvent.Basename` takes the text after the last `\` or `/`.
- LineBuffer.Reload: `size_t` is taken as 64 bits. In a 32-bit build `screen_width - indent` and `left--` (src/firewall.c:1559, 1599) wrap at 2^32 instead; the result is the same for any text shorter than 2^32 characters.
- LineBuffer.DecU64: the same 64-bit `size_t`; in a 32-bit build 0 wraps to 2^32-1.
- LineBuffer.WrapFrom: `ch = c[-1]` (src/firewall.c:1592) is read before `c > start` is tested, so a text that starts with `brk_ch` or `-` reads the byte before the caller's string. The model has no memory outside the text and does not show that read; the value read is never used in that case.
- WsockTrace.Counters: the traffic counters are unbounded, since their declared width is not part of this model.
- WsockTrace.CountWsabuf: overflow of the `int` sum is not modelled. Buffer lengths are unbounded naturals.
- WsockTrace.SocketOrErrorCases: the static `buf[10]` is not modelled. The ten- and eleven-character results (for example `-2147483648`) would not fit in it.
- LineBuffer.FwBuffer.Add: `_vsnprintf` is not modelled, and its overflow path is left out. The formatted text is a parameter, and the precondition that it fits in the room left is an assumption: calls such as src/firewall.c:2156, 2160, 3011 and 3588 print strings of any length. When the text does not fit, `_vsnprintf` returns -1, so `fw_ptr` steps back one character and `fw_left` grows by one (src/firewall.c:1522-1524). The model does not capture that path.
- FwEvent.VolumeToPathMapped: the `_strlcpy` bound of `volume_to_path` is not modelled. Its only caller passes names shorter than `_MAX_PATH`, so the copy never truncates.
- FwEvent.Monitor.EventCallback: the text the callback prints is not modelled, only which checks passed and the resulting counters and cache.

## Findings

| source | as written | input that shows it | evidently intended | confidence | as-written member | corrected member |
|---|---|---|---|---|---|---|
| src/wsock_trace.c:1001-1008 | `code & IOC_INOUT` is tested first, and `IOC_INOUT` is `IOC_IN \| IOC_OUT`, so any code with one direction bit tags `" (RW)"`; the `(R)` and `(W)` branches are unreachable | `code = IOC_OUT` (0x40000000) is tagged `" (RW)"` | test `(code & IOC_INOUT) == IOC_INOUT` first, so that a read-only or write-only code is tagged `(R)` or `(W)` | high, not executed | WsockTrace.IoctlTagAsWritten | WsockTrace.IoctlTagIntendedDirections |
| src/wsock_trace.c:1549-1553 | `recv_EWOULDBLOCK` is incremented when `rc == WSAEWOULDBLOCK`, inside the `rc < 0` branch; `WSAEWOULDBLOCK` is 10035, so the counter never moves | any `recvfrom` that fails with `WSAEWOULDBLOCK`: `rc == -1` | compare `WSAGetLastError()` with `WSAEWOULDBLOCK` | high, not executed | WsockTrace.Counters.RecvFrom | WsockTrace.Counters.RecvFromIntended |
| src/firewall.c:3700-3703 | the comment says "Show activity for logged-on user only", but with `show_user` set the check refuses exactly the account equal to the logged-on user (`!stricmp` is true on a match) | `show_user` set, an event whose account is the logged-on user: it is ignored, while every other user's event is shown | refuse the events whose account differs from the logged-on user | medium, not executed | FwEvent.UserShownHidesOwnUser | FwEvent.UserShownIntendedOnlyOwnUser |
