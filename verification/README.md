# GIOP connection handlers, the drwho hash-table iterator and the ACE release version arithmetic

This project models three sequential pieces of the ACE/TAO code base in Dafny and proves properties of them.

- **GIOP connection handlers** (`TAO/tao/Connect.cpp`). On the server side:
  - `handle_input` decides what to do with each message the GIOP receiver delivers.
  - `handle_locate` chooses OBJECT_HERE, OBJECT_FORWARD or UNKNOWN_OBJECT and lays out the LocateReply.
  - `send_error` lays out the Reply that carries a dispatch exception.
  - `svc` calls `handle_input` until it returns a negative value.

  On the client side, the single-threaded (ST) and multi-threaded (MT) `send_request`/`handle_input` pairs drive three flags: `expecting_response_`, `input_available_` and `calling_thread_`. `check_unexpected_data`, `open` (its socket-option failures and its reactor registration) and `handle_close` are modelled too.

  The GIOP receiver and sender, POA dispatch, the reactor and the ORB core's leader-follower calls are collaborators. What each of them answers is an input to the model (an "oracle"). Each section the source runs under the leader-follower lock is one atomic step. Message kinds and status codes are those of chapter 15 of the CORBA specification:
  - Reply, section 15.4.3;
  - LocateReply, section 15.4.6.

  `Giop.DecodeLocateReply` and `Giop.DecodeErrorReply` read a reply body the way section 15.4 lays it out. They are an independent reference for what the handlers write.

- **Hash-table iterator** (`apps/drwho/Hash_Table.cpp`). The table is an array of bucket chains. Each chain is a sequence, and `current_ptr` is the rest of the chain starting at the node it points to. `get_next_entry` advances the two cursor fields `current_index` and `current_ptr`.
  - `Remaining()` is everything the coming calls will return before the next null.
  - Each call returns the head of `Remaining()` and leaves its tail.
  - After a null, `Remaining()` is a whole new pass, bucket by bucket and chain order within each bucket.
  - `FlattenPosition` and `OffsetsIncrease` show that in a pass every node has its own position. So each node is visited exactly once per pass.

- **Release version arithmetic** (`ACE/bin/make_release.py`):
  - reading `version N[.N[.N]]` from the first line of VERSION.txt, with the regular expression's leftmost-match and greedy-digit semantics, a missing group reading as 0;
  - the bump for a major, minor or micro release;
  - the `_version`, `_version_` and `_code` values, and the `old_comp_versions` copy;
  - `get_tag` and `get_path`;
  - the prefix strip in `commit`;
  - the line-by-line rewrite in `update_spec_file`.

  The dictionaries `comp_versions` and `old_comp_versions` are fields of a class. The method `GetCompVersions` updates them in place.

Files:
- `optional.dfy`: `Option`.
- `giop.dfy`: GIOP values, status codes and the reference decoders.
- `server_handler.dfy`, `client_handler.dfy`: the connection handlers.
- `hash_table.dfy`: the hash-table iterator.
- `make_release.dfy`: the release script's version logic.

## Model

| member | source | states |
|---|---|---|
| Giop.StatusCodesRoundTrip | TAO/tao/Connect.cpp:293-353 | The LocateStatus and ReplyStatus codes (0-2 and 0-3) read back as the status they encode. |
| ServerHandler.SelectLocateStatus | TAO/tao/Connect.cpp:293-353 | The locate status is OBJECT_HERE exactly when neither the server request nor the environment holds an exception. Every other status comes with the exception cleared. |
| ServerHandler.LocateForwardIff | TAO/tao/Connect.cpp:301-353 | OBJECT_FORWARD exactly for a non-nil forward location in the server request, or for an environment exception that narrows to ForwardRequest. The forward reference is the one that branch holds. UNKNOWN_OBJECT for every other exception. The exception is cleared in both exception branches. |
| ServerHandler.HandleLocate | TAO/tao/Connect.cpp:245-381 | handle_locate always reports the request id it read. A LocateReply it sends starts with that id and the code of the chosen status. |
| ServerHandler.HandleLocateReply | TAO/tao/Connect.cpp:245-381 | handle_locate fails (-1, no response required) exactly on a header parse failure or a forward reference that cannot be encoded. Otherwise its LocateReply decodes to the request id and the chosen status, plus the forward reference only for OBJECT_FORWARD. |
| ServerHandler.SendError | TAO/tao/Connect.cpp:396-493 | send_error sends nothing exactly for request id 0. A Reply it sends has four fields: an empty service-context list, the request id, the status and the exception or reference. |
| ServerHandler.SendErrorReply | TAO/tao/Connect.cpp:396-493 | send_error sends nothing for request id 0 and closes the connection when marshalling fails. Otherwise its Reply starts with an empty service-context list and decodes to the request id plus LOCATION_FORWARD with the reference (only for a ForwardRequest with a non-nil reference), SYSTEM_EXCEPTION for a system exception, or USER_EXCEPTION otherwise. |
| ServerHandler.HandleInputOutcome | TAO/tao/Connect.cpp:495-660 | handle_input returns 0 or -1. A -1 never comes with a reply sent or a connection closed by send_error. |
| ServerHandler.HandleInputCloses | TAO/tao/Connect.cpp:536-591 | With the shutdown flag raised, and for EndOfFile, Reply, LocateReply, CloseConnection, CommunicationError, MessageError or any other kind, handle_input returns -1 and sends nothing. |
| ServerHandler.HandleRequestOutcome | TAO/tao/Connect.cpp:200-242 | For a Request: an unreadable header or a non-CORBA exception gives -1. A dispatched reply is sent exactly when a response is required. A dispatch exception gives send_error's outcome when a response is required, and -1 otherwise. |
| ServerHandler.HandleInputReplyIff | TAO/tao/Connect.cpp:595-659 | A reply goes out exactly for a readable Request that owes a response and either dispatched or has an error reply that can be sent, or for a readable LocateRequest whose reply can be encoded. |
| ServerHandler.SvcTrace | TAO/tao/Connect.cpp:180-181 | The handle_input results svc sees: every one before the last is non-negative, and the last is negative. |
| ServerHandler.SvcTraceAt | TAO/tao/Connect.cpp:180-181 | Call j of svc handles the j-th arrival. |
| ServerHandler.SvcOneWayThenEof | TAO/tao/Connect.cpp:150-190 | A one-way request followed by end of file makes svc read twice, send nothing and end with -1. |
| ServerHandler.ServerConnectionHandler.HandleInput | TAO/tao/Connect.cpp:495-660 | One handle_input call appends the message it sends to what the connection carries, records a close by send_error, and returns handle_input's result. |
| ServerHandler.ServerConnectionHandler.Svc | TAO/tao/Connect.cpp:150-190 | svc returns a negative value: the result of the first call that returned one. All the replies of the calls before it were sent, in order. |
| ClientHandler.SettlesStep | TAO/tao/Connect.cpp:849-852 | A wait that ends keeps ending after a skipped event, and its first real event is not a skip. |
| ClientHandler.CheckUnexpectedData | TAO/tao/Connect.cpp:765-805 | Input while no response is expected always answers -1: a graceful shutdown (peek 0), an abrupt one (peek -1) and unexpected data (peek 1) alike close the connection. |
| ClientHandler.ClientConnectionHandler.constructor | TAO/tao/Connect.cpp:662-680 | A new handler expects no response, has no input available and no calling thread. |
| ClientHandler.ClientConnectionHandler.Open | TAO/tao/Connect.cpp:696-747 | When a socket option (buffer sizes, TCP_NODELAY) cannot be set, open returns -1 before registering. Otherwise it registers the handler with the reactor for input and returns 0. No flag changes either way. |
| ClientHandler.ClientConnectionHandler.HandleClose | TAO/tao/Connect.cpp:1097-1126 | handle_close marks the handler closed with the recycler (if there is one), leaves the reactor, closes the socket and returns 0. The flags are not touched. |
| ClientHandler.ClientConnectionHandler.StHandleInput | TAO/tao/Connect.cpp:862-879 | While a response is expected, handle_input flags the input, suspends the handler and returns 0. Otherwise `check_unexpected_data` (lines 765-805) makes it return -1 with no flag changed. |
| ClientHandler.ClientConnectionHandler.StSendRequest | TAO/tao/Connect.cpp:807-860 | A failed send returns -1 before any flag changes. A one-way call returns 0 and changes nothing. A two-way call returns 0 with both flags reset and the handler resumed, also when handle_events failed. |
| ClientHandler.ClientConnectionHandler.MtHandleInput | TAO/tao/Connect.cpp:1014-1095 | Unexpected input returns -1. Input for the calling thread is flagged and the handler suspended. Input for a follower removes that follower, suspends the handler, and under the lock again flags the input and signals. Each branch records the lock and leader-follower calls it makes (the calls listed under Left out excepted). |
| ClientHandler.ClientConnectionHandler.MtSendRequest | TAO/tao/Connect.cpp:881-1012 | A one-way call never takes the lock. A lock failure returns -1. The send and handle_events failures return -1 and leave `expecting_response_` and `calling_thread_` set. Success resets all three fields. The follower wait and the leader's event loop end as the oracles dictate. Each branch records the lock and leader-follower calls it makes (the calls listed under Left out excepted), and a follower wait happens only when another thread leads and no input was flagged. |
| DrwhoHashTable.FlattenAppend | apps/drwho/Hash_Table.cpp:31-42 | Visiting two runs of buckets in order visits the first run's nodes, then the second's. |
| DrwhoHashTable.FlattenSkipEmpty | apps/drwho/Hash_Table.cpp:31-35 | Skipping null buckets does not change what remains to be visited. |
| DrwhoHashTable.FoundBucket | apps/drwho/Hash_Table.cpp:34-38 | When the scan stops at the first non-null bucket, the remaining nodes are its head, the rest of its chain, then the later buckets. |
| DrwhoHashTable.FlattenPosition | apps/drwho/Hash_Table.cpp:28-49 | Node p of bucket k is visited at position Offset(k)+p of a pass. |
| DrwhoHashTable.OffsetsIncrease | apps/drwho/Hash_Table.cpp:28-49 | Distinct nodes are visited at distinct positions, so each node appears once per pass. |
| DrwhoHashTable.ScanFinds | apps/drwho/Hash_Table.cpp:31-42 | When the scan finds nothing, no node is left from its start on. When it returns the head of a bucket and leaves `current_ptr` at the head's `next_`, the nodes left from its start are that head, then `current_ptr`'s chain, then the later buckets. |
| DrwhoHashTable.HashTable.constructor | apps/drwho/Hash_Table.cpp:6-16 | A new table has `size` null buckets, `current_index` 0 and `current_ptr` null, so nothing remains to be visited. |
| DrwhoHashTable.HashTable.GetNextEntry | apps/drwho/Hash_Table.cpp:20-50 | It returns the first remaining node and leaves the rest. Once none remain, it returns null with `current_index` -1, after which a whole new pass remains. A pending chain advances along `next_`. A scan returns the head of the first non-null bucket from `current_index` on (from 0 after -1), leaves `current_index` one past it and `current_ptr` at the head's `next_`, and returns null exactly when all the scanned buckets are null. The buckets are not changed. |
| DrwhoHashTable.HashTable.ScanBuckets | apps/drwho/Hash_Table.cpp:31-42 | The scan returns the head of the first non-null bucket from `current_index` on, leaves `current_index` one past it and `current_ptr` at the head's `next_`, and returns null with `current_index` -1 exactly when all the scanned buckets are null. The buckets are not changed. |
| DrwhoHashTable.HashTable.GetEachEntry | apps/drwho/Hash_Table.cpp:52-56 | It carries get_next_entry's whole contract: the first remaining node or the end of a pass, and the same cursor update (a pending chain advances, otherwise the scan). The buckets are not changed. |
| MakeRelease.DigitChar | ACE/bin/make_release.py:491-494 | A digit 0-9 becomes a decimal digit character. |
| MakeRelease.DigitValue | ACE/bin/make_release.py:465-467 | A decimal digit character has a value below 10 and is that digit's character. |
| MakeRelease.NatToString | ACE/bin/make_release.py:491-494 | `str(n)` is a non-empty run of decimal digits with no leading zero. |
| MakeRelease.DigitsValue | ACE/bin/make_release.py:465-467 | `int()` of a digit string ignores a leading zero. |
| MakeRelease.NatToStringRoundTrip | ACE/bin/make_release.py:465-467 | `int(str(n)) == n`. |
| MakeRelease.NatToStringInjective | ACE/bin/make_release.py:491-498 | Different numbers have different decimal strings. |
| MakeRelease.Bump | ACE/bin/make_release.py:479-488 | Without `--update`, or with no release type, the numbers are unchanged. Major gives (M+1, 0, 0), minor (M, m+1, 0), micro (M, m, u+1). |
| MakeRelease.BumpIncreases | ACE/bin/make_release.py:479-488 | Every requested bump yields a strictly later version. |
| MakeRelease.Dotted | ACE/bin/make_release.py:491-494 | `_version` is made of digits and dots only, and starts and ends with a digit. |
| MakeRelease.Underscored | ACE/bin/make_release.py:495-498 | `_version_` is made of digits and underscores only, and starts and ends with a digit. |
| MakeRelease.Code | ACE/bin/make_release.py:500-503 | The code is at least major·65536, and while minor and micro fit a byte it stays below (major+1)·65536. |
| MakeRelease.CodeDecodes | ACE/bin/make_release.py:500-503 | While minor and micro are below 256, the code `(M<<16)+(m<<8)+u` gives back all three numbers. |
| MakeRelease.CodeOrder | ACE/bin/make_release.py:284 | While minor and micro are below 256, comparing `MAKE_VERSION_CODE` values compares versions, and equal codes mean equal versions. |
| MakeRelease.CodeCollides | ACE/bin/make_release.py:500-503 | Past 255 the fields overlap: 0.1.0 and 0.0.256 share a code. |
| MakeRelease.UnderscoredIsDotted | ACE/bin/make_release.py:491-498 | `_version_` is `_version` with dots turned into underscores, and `_version` is `_version_` with underscores turned into dots. |
| MakeRelease.FindMatch | ACE/bin/make_release.py:450-461 | `re.search` finds the leftmost start of "version " plus a digit, or reports that there is none. |
| MakeRelease.DigitRun | ACE/bin/make_release.py:450 | The greedy `\d+` run is made of digits only and stops at the end of the line or at a non-digit. |
| MakeRelease.GroupsAt | ACE/bin/make_release.py:450-463 | The major number is the value of the greedy digit run after "version ". When no dot and digit follow that run, minor and micro are 0. |
| MakeRelease.ParseVersionLine | ACE/bin/make_release.py:450-463 | A line gives no version exactly when the pattern occurs nowhere in it. |
| MakeRelease.ParseDottedRoundTrip | ACE/bin/make_release.py:450-467 | A line that carries "version M.m.u" (with no 'v' before it and no digit after it) parses to exactly (M, m, u). |
| MakeRelease.ParseMajorOnly | ACE/bin/make_release.py:450-467 | "version M" followed by neither a digit nor a dot parses to (M, 0, 0). |
| MakeRelease.ParseMajorMinor | ACE/bin/make_release.py:450-467 | "version M.m" followed by neither a digit nor a dot parses to (M, m, 0). |
| MakeRelease.NewEntry | ACE/bin/make_release.py:490-503 | The stored `_version`, `_version_` and `_code` are those of the bumped numbers. |
| MakeRelease.OldEntry | ACE/bin/make_release.py:475-512 | The old entry holds the numbers read and their `_version` and `_version_`, with no code. |
| MakeRelease.CurrentVersion | ACE/bin/make_release.py:459-477 | Only the first line of VERSION.txt decides the version. An empty file falls back to the numbers already held. |
| MakeRelease.ReleaseVersions.GetCompVersions | ACE/bin/make_release.py:444-512 | A first line without the pattern raises, and so does an empty file when the component holds no numbers yet. Either way no dictionary changes. Otherwise `old_comp_versions[component]` is the version read and `comp_versions[component]` the bumped one, each with its derived strings. Every other component is left as it was. |
| MakeRelease.Tag | ACE/bin/make_release.py:191-193 | A tag is "ACE+TAO-" followed by digits and underscores only. |
| MakeRelease.GetTag | ACE/bin/make_release.py:191-193 | The tag exists exactly when the component has numbers, and is "ACE+TAO-" followed by them. |
| MakeRelease.TagIsVersionUnderscore | ACE/bin/make_release.py:191-193 | The tag, like the one `push` and `export_wc` build from the ACE numbers (lines 595-597 and 642-644), is "ACE+TAO-" followed by the stored `_version_`. |
| MakeRelease.TagInjective | ACE/bin/make_release.py:191-193 | Different versions get different tags. |
| MakeRelease.BumpChangesTag | ACE/bin/make_release.py:479-488 | Every requested bump yields a new tag. |
| MakeRelease.GetPath | ACE/bin/make_release.py:195-199 | A path starts with "<doc_root>/ACE_TAO/". With a component it is exactly one "/" longer than root, component and subpath together. |
| MakeRelease.GetPathUnderRoot | ACE/bin/make_release.py:195-199 | Every path get_path builds starts with the root path `get_path()`, followed by "component/subpath" when a component is given. |
| MakeRelease.StripPrefix | ACE/bin/make_release.py:209 | A name that starts with the root loses exactly that prefix. Any other name is unchanged. |
| MakeRelease.StripRoot | ACE/bin/make_release.py:209 | The comprehension keeps the order and the number of names, and strips each one. |
| MakeRelease.Commit | ACE/bin/make_release.py:204-210 | commit needs the ACE version. It commits under the ACE tag, and adds the names it was given, in order, with the root path stripped from each. |
| MakeRelease.CommitRelativizes | ACE/bin/make_release.py:204-210 | A path built by get_path is committed as "component/subpath". A name outside the root is kept as given. |
| MakeRelease.FindFrom | ACE/bin/make_release.py:340-344 | `str.find` returns the first occurrence of the pattern, or -1 exactly when there is none. |
| MakeRelease.SpecStepsTouchOnlyKeyLines | ACE/bin/make_release.py:339-348 | Each of the three checks raises only for a line holding its key while its version is missing. It changes only a line holding its key and writes a whole newline-terminated line, ending in 0 or 1 for is_major_ver (0 only for a micro release). With both versions known, the line rewrite never raises. |
| MakeRelease.SpecLineRewrite | ACE/bin/make_release.py:339-350 | With the stored versions, a spec line holding "define ACEVER " becomes the ACEVER line. Otherwise one holding "define TAOVER " becomes the TAOVER line, and otherwise one holding "define is_major_ver" becomes the flag line (0 only for a micro release). Any other line is unchanged. |
| MakeRelease.SpecLineIdempotent | ACE/bin/make_release.py:339-350 | Rewriting an already rewritten line changes nothing. |
| MakeRelease.AceLineStable | ACE/bin/make_release.py:340-341 | The ACEVER line the rewrite writes is rewritten to itself. |
| MakeRelease.TaoLineStable | ACE/bin/make_release.py:342-343 | The TAOVER line the rewrite writes is rewritten to itself. |
| MakeRelease.MajorLineStable | ACE/bin/make_release.py:344-348 | The is_major_ver line the rewrite writes is rewritten to itself. |
| MakeRelease.RewriteLines | ACE/bin/make_release.py:338-350 | Rewriting a file line by line gives one line per input line when it succeeds. |
| MakeRelease.RewriteLinesEach | ACE/bin/make_release.py:338-350 | A line-by-line rewrite fails exactly when some line's rewrite fails. Otherwise line i of the result is line i rewritten. |
| MakeRelease.RewriteLinesStep | ACE/bin/make_release.py:338-350 | Rewriting one more line fails when that line fails. Otherwise it appends that line's rewrite, and the text grows by exactly that line. |
| MakeRelease.RewriteSpec | ACE/bin/make_release.py:339-350 | A successful rewrite has one line per input line. |
| MakeRelease.RewriteSpecLines | ACE/bin/make_release.py:339-350 | The file rewrite fails exactly when some line needs a missing version. Otherwise line i of the result is line i rewritten. |
| MakeRelease.RewriteLinesFailsEarly | ACE/bin/make_release.py:338-350 | A line that raises aborts the whole rewrite. |
| MakeRelease.RewriteFile | ACE/bin/make_release.py:338-350 | The loop's `new_spec` is the concatenation of the rewritten lines, and the loop stops with nothing exactly when the line-by-line rewrite fails. |
| MakeRelease.UpdateSpecFile | ACE/bin/make_release.py:335-360 | The loop's `new_spec` is the concatenation of the rewritten lines, and it raises exactly when the file rewrite fails. |

## Left out

- Socket options in the client `open` are one oracle saying whether they could be set. The options themselves, and host-name lookup in the server `open`, are left out, as are `activate`, `handle_close` and the thread-manager constructors of the server handler, timeprobes, the TSS ORB-core swap in `svc`, and debug logging: these are operating-system and configuration plumbing.
- CDR encoding, `TAO_GIOP::recv_request`/`send_request`, request-header parsing, POA `dispatch_servant`, reactor internals and the ORB core's leader-follower implementation are not part of this model. What they answer is an input.
- Thread interleaving: each lock-held section is one atomic step. Condition-variable waits and reactor event loops read a finite sequence of outcomes (wake-ups or events).
- ClientHandler.ClientConnectionHandler.StSendRequest: requires that its handle_events sequence contain an event other than Idle, because the model does not capture a wait that never ends.
- ClientHandler.ClientConnectionHandler.MtSendRequest: requires that its follower wake-ups and reactor events contain a real event, because the model does not capture a wait that never ends.
- Releasing the leader-follower lock is assumed to succeed. The failures of the lock acquire in a two-way `send_request` and in a direct `handle_input` call are modelled.
- ClientHandler.ClientConnectionHandler.MtSendRequest: the `handle_input` calls made on behalf of a waiting follower or of the leader always succeed in taking the lock, at line 1019 and again at line 1078. A failed acquire or re-acquire there, which leaves the handler suspended and the follower unsignalled, is not modelled.
- ClientHandler.ClientConnectionHandler.MtSendRequest: `add_follower` (line 942) and the release and re-acquire inside the condition wait (line 946) are not in the recorded call list. Each follower wait is only counted in `followerWaits`, and a failing `add_follower` is not modelled. The call at line 982 that makes the leader the reactor's owner is not recorded either.
- ServerHandler.HandleInputOutcome: exceptions follow the environment-argument build of Connect.cpp, where handle_locate reads the exception from the environment (lines 293-353), and `RaisedForeign` is the catch-all of native C++ exceptions (lines 613-626). Under native exceptions, a ForwardRequest or OBJECT_NOT_EXIST thrown by `dispatch_servant` inside handle_locate (lines 283-287) would reach the handler at lines 595-611 with `response_required` set (line 267), send send_error's Reply and return 0. The model does not produce that path.
- ServerHandler.ArrivalAt: a stream of arrivals that runs out is read as the peer closing the connection (EndOfFile), so svc's loop always ends.
- The ST and MT client handlers are subclasses in the source. Here they are one class whose methods carry the prefix `St` or `Mt`.
- `TAO_Client_Connection_Handler::close` and the destructors only free memory.
- `Hash_Table::~Hash_Table` walks the chains but frees nothing and only logs. Inserting into the table happens outside the modelled file; the buckets are an array whose contents the caller supplies.
- Pointer identity of chain nodes: a chain is a sequence of records, so two chains cannot share nodes.
- make_release.py's git, shell, file and archive operations, its option parsing, `update_version_files`, the PRF and debian updates, and the file-list walk are left out. The lines of VERSION.txt and of the spec file are inputs, and the rewritten spec text is the output.
- Python's `\d` also matches non-ASCII decimal digits. The model only reads ASCII 0-9.
- The dictionary keys `component + "_major"` and so on are modelled as one entry per component. The key concatenation is not modelled.
- `print`/`vprint` output and the `take_action` switch are not modelled.
