# Socket demos: a Dafny model of their protocol logic

This project models the protocol logic of a set of small TCP teaching servers
and clients written in Python. It leaves out the sockets and threads and
proves properties of what is left.

- **Framing** (`framing.dfy`) models the line reader `recv_line`, which is
  copied into five of the programs. The input is the list of chunks that
  `recv` returns, where an empty chunk means the peer closed. The reader
  returns the stripped text before the first newline of what has been
  delivered, or `None`. Text after that newline in the same chunk is lost.
- **Text** (`text.dfy`) models the Python built-ins the protocols use:
  - `str.strip()`, over the whitespace set of `str.isspace()`;
  - `str.rstrip(ch)`;
  - the `upper() == 'EXIT'` test;
  - `startswith`;
  - `int(text)` and `str(n)`.
- **Greeting** (`greeting.dfy`) models the greeting server. It reads a name,
  answers `Hello {name}!`, and then echoes every chunk unchanged.
- **Ladder** (`ladder.dfy`) models the number ladder server and client as
  functions over the chunks each side receives. The server sends 1, 3, 5, …
  and then `DONE`. The client answers `n` with `n + 1`. When the client
  receives `k\nDONE\n` in one chunk, it never sees `DONE`.
- **Roster** (`roster.dfy`) and **ChatServer** (`chat_server.dfy`) model the
  thread-per-client chat server (`simple_server_no_locks_Version9.py`):
  - the `(conn, name)` list;
  - `broadcast`, which skips the excluded connection and then removes every
    entry whose send failed;
  - each handler as a state machine. It reads a name and joins, then relays
    lines until end of stream or `EXIT`, and then always runs its cleanup.
  - `BroadcastLoop` transcribes `broadcast`'s two loops and is proved equal
    to the functional `Broadcast`.
- **OldChat** (`old_chat.dfy`) models the older chat server
  (`simple_chat_server.py`). It puts sockets on the list at accept time and
  reads the nickname from the first raw chunk. Its `broadcast` removes
  clients from the list it is iterating over, so the client after a failed
  one is skipped on that pass. The model records which sockets the server
  has closed. A send to a closed socket always fails. A socket whose
  nickname read failed is closed but stays on the list until a broadcast
  fails on it.
- **Bridge** (`bridge.dfy`), **TurnClient** (`turn_client.dfy`) and
  **TurnSystem** (`turn_system.dfy`) model the turn bridge and the turn
  client, and then run them together:
  - The bridge reads strictly alternately from A and B.
  - After each of its own lines, the client waits for two server lines
    before it may type again.
  - Composed, after one line each way all three programs block on reads
    that nobody will satisfy.

Concurrency is modelled as an interleaving of whole events. Each accepted
connection, each line a handler reads and each failed read is one atomic
step on the shared state. Which `sendall` calls fail is a parameter: the set
`failing` of connections whose sends raise. Console input is also a
parameter: a list of typed lines.

The model follows the code as written, including where it departs from what
a careful chat relay would do:
- A connection that closes before sending a name still runs the `finally`
  block, so the server broadcasts `SERVER:  left` with an empty name for a
  connection that never joined.
- The line reader discards the bytes after the first newline in a chunk
  instead of keeping them for the next read.
- Joining appends to the roster without checking for an existing entry.
  Cleanup removes every entry of the connection.

## Model

| member | source | states |
|---|---|---|
| Framing.RecvLine | greeting_server_Version2.py:18-29 | the chunks left over are a suffix of the input; a line is returned only after at least one chunk has been taken; at end of stream nothing is left |
| Framing.RecvLineIsFirstLine | bridge_turn_server.py:25-36 | the line read is the stripped text before the first newline of everything delivered before the peer closed, and it is `None` exactly when that text holds no newline |
| Framing.RecvLineConsumes | number_ladder_server_Version2.py:19-29 | a read takes whole chunks up to and including the first one with a newline, and the delivered text is what those chunks hold followed by what later reads can see, so the bytes after the newline in that chunk are never returned by any later read |
| Framing.NewlineInFirstChunk | turn_client_Version3.py:25-34 | a newline in the first chunk yields the stripped text before it, and the next read starts at the second chunk |
| Framing.LineThenTail | number_ladder_client_Version2.py:19-28 | a clean line followed by more text in the same chunk is read as the line alone; the next read starts at the following chunk |
| Text.StripSlice | greeting_server_Version2.py:29 | `strip()` returns a contiguous slice of its input; everything cut from either end is whitespace, and the result neither starts nor ends with whitespace |
| Text.StripIdempotent | number_ladder_server_Version2.py:42 | stripping an already stripped line changes nothing |
| Text.StripEmpty | simple_server_no_locks_Version9.py:36 | `strip()` yields the empty string exactly when every character is whitespace |
| Text.StripDropsNewline | simple_chat_server.py:29 | stripping a chunk that ends in a newline removes only that newline when the text before it has no whitespace at either end |
| Text.NameFromSpec | turn_client_Version3.py:37 | the name sent is `Anon` when the typed text is all whitespace and the stripped text otherwise, and it is already stripped |
| Text.RStripChar | simple_server_no_locks_Version9.py:42 | `rstrip(ch)` removes a run of `ch` from the end and keeps the prefix before it; the result does not end in `ch` |
| Text.ExitSpellings | simple_server_no_locks_Version9.py:43 | `line.upper() == 'EXIT'` holds exactly for the four-letter spellings of exit in any mix of cases |
| Text.ParseInt | number_ladder_server_Version2.py:41-45 | `int()` succeeds exactly on an optional sign followed by at least one digit; a leading `-` gives a value of at most zero and anything else a value of at least zero |
| Text.ParseShow | number_ladder_client_Version2.py:51-56 | `int(str(n)) == n` for every integer `n` |
| Text.ShowIntClean | number_ladder_server_Version2.py:52 | the text of a number holds no newline and no whitespace at either end, so a number line is read back as that text |
| Greeting.Handle | greeting_server_Version2.py:31-48 | nothing is sent exactly when no name is read; otherwise the first send is `Hello {name}!` followed by a newline; there are never more sends than chunks |
| Greeting.HandleSpec | greeting_server_Version2.py:34-48 | the name is the first stripped line of what the client delivers; with no newline there is no name; with a name, the greeting is followed by exactly the chunks delivered after the one holding the newline |
| Greeting.EchoIsLive | greeting_server_Version2.py:43-48 | the echo loop sends back each chunk unchanged and in order, and stops at the first empty read |
| Greeting.EchoIsWhatFollows | greeting_server_Version2.py:26-29 | everything the client delivered is the chunks used to read the name followed by the echoed data; the rest of the chunk after the name is not kept, whatever the comment on line 28 says |
| Greeting.PipelinedLineNotEchoed | greeting_server_Version2.py:27-28 | a name and a line sent in one chunk: the greeting is sent and the line is never echoed |
| Greeting.SeparateLineEchoed | greeting_server_Version2.py:39-48 | the same line sent as a chunk of its own is echoed after the greeting |
| Ladder.Serve | number_ladder_server_Version2.py:31-52 | nothing is sent exactly when the name or target line is missing; an invalid target gets exactly `ERROR: invalid target`; otherwise the first line sent is `1` |
| Ladder.Climb | number_ladder_server_Version2.py:48-68 | the number about to be sent always goes first; the ladder ends by reaching the target, by the client leaving, or on a bad number; reaching the target ends with `DONE` |
| Ladder.SmallTarget | number_ladder_server_Version2.py:52-56 | a target of 1 or less gives `1`, then `DONE`, and the client is never read |
| Ladder.ServerTrustsClient | number_ladder_server_Version2.py:62-68 | whatever number `v` the client sends back, the next number sent is `v + 1`; it is never checked against `current + 1` |
| Ladder.BadReplyStops | number_ladder_server_Version2.py:62-66 | a reply that is not an integer gets `ERROR: invalid number` and nothing after it |
| Ladder.ClientLeavesSilently | number_ladder_server_Version2.py:58-61 | a client that closes instead of replying ends the ladder with nothing more sent |
| Ladder.ClimbShape | number_ladder_server_Version2.py:48-68 | whatever the client replies, the server sends a run of numbers starting at the current one, all below the target but the last; the last reaches the target exactly when the ladder ends there; `DONE` follows on reaching the target, `ERROR: invalid number` after a bad reply, and nothing when the client closed |
| Ladder.DoneOnlyAtTarget | number_ladder_server_Version2.py:52-56 | `DONE` is sent exactly on ladders that reach the target, and never before the last line |
| Ladder.RungsAreOdd | number_ladder_server_Version2.py:50-68 | against a client that counts correctly, the numbers sent are 1, 3, 5, …: every one before the last is below the target and the last reaches it |
| Ladder.ServerClimbs | number_ladder_server_Version2.py:50-68 | given the replies `n + 1` to each number, the server sends exactly the odd rungs and then `DONE`, and ends by reaching the target |
| Ladder.Client | number_ladder_client_Version2.py:30-40 | a target that is not an integer stops the client with nothing sent, and only then; otherwise the name line and the target line are the first two lines sent |
| Ladder.Answer | number_ladder_client_Version2.py:41-57 | the client stops on `DONE`, on a closed server or on a line that is not a number, and sends at most one line per chunk it receives |
| Ladder.DoneRead | number_ladder_client_Version2.py:46-48 | an exact `DONE` line ends the client without a reply |
| Ladder.NonNumberStops | number_ladder_client_Version2.py:50-54 | a line that is neither `DONE` nor an integer stops the client with no reply |
| Ladder.ClosedServerStops | number_ladder_client_Version2.py:43-45 | a closed server, before anything was read or after earlier lines, stops the client with no reply |
| Ladder.ClientAnswers | number_ladder_client_Version2.py:49-57 | a number line `n` gets exactly one reply, `n + 1`, and the client then goes on with the following chunks |
| Ladder.ClientClimbs | number_ladder_client_Version2.py:41-57 | given one number per chunk followed by `DONE`, the client answers each number `n` with `n + 1` and ends having seen `DONE` |
| Ladder.DoneLostWhenCoalesced | number_ladder_client_Version2.py:41-48 | when `k` and `DONE` arrive in one chunk, the client answers `k + 1` to a server that has closed and ends on "Server closed" without seeing `DONE` |
| Ladder.ServerDialog | number_ladder_server_Version2.py:31-68 | a name line, a target line and the correct replies make the server send the odd rungs and `DONE` |
| Ladder.ClientDialog | number_ladder_client_Version2.py:30-57 | given the server's rungs and `DONE`, the client sends its name, the target and the successor of each rung, and ends having seen `DONE` |
| Ladder.LadderDialog | number_ladder_client_Version2.py:39-57 | the two programs agree when each server line arrives in its own chunk: what the client sends makes the server send exactly the lines the client was given |
| Roster.Broadcast | simple_server_no_locks_Version9.py:12-26 | nothing is sent to the excluded connection; every other connection gets `text` and a newline once for each of its entries; a send is delivered exactly when it does not fail; the new roster keeps the old order and holds exactly the entries whose connection is excluded or did not fail |
| Roster.TargetsCounts | simple_server_no_locks_Version9.py:15-17 | each connection is tried as many times as it has roster entries, and the excluded connection never |
| Roster.TargetsInRosterOrder | simple_server_no_locks_Version9.py:15 | sends are attempted in roster order |
| Roster.TargetsCover | simple_server_no_locks_Version9.py:15-17 | the connection of an entry is tried exactly when it is not the excluded one |
| Roster.RemoveConnsSpec | simple_server_no_locks_Version9.py:23-26 | removal by identity drops every entry of the dead connections, keeps every other entry in order, and changes nothing when none is dead |
| Roster.RemoveConnsIdempotent | simple_server_no_locks_Version9.py:54-56 | removing a connection's entries a second time changes nothing |
| Roster.RemoveConnsTwice | simple_server_no_locks_Version9.py:23-26 | removing one dead connection after another equals removing them all at once |
| Roster.FailedInMembers | simple_server_no_locks_Version9.py:20-21 | `to_remove` holds exactly the targets whose send failed |
| Roster.SendPass | simple_server_no_locks_Version9.py:14-21 | the first loop makes one send attempt per target, in order, and collects the failed targets |
| Roster.RemoveEntries | simple_server_no_locks_Version9.py:24-26 | walking a copy of the list and removing each entry of `conn` leaves the roster without that connection |
| Roster.BroadcastLoop | simple_server_no_locks_Version9.py:12-26 | the two loops of `broadcast` produce exactly the sends and the roster of `Broadcast` |
| ChatServer.DisplayNameSpec | simple_server_no_locks_Version9.py:36 | the display name is the stripped first line, or `str(addr)` when that line is all whitespace |
| ChatServer.Join | simple_server_no_locks_Version9.py:37-39 | the joiner becomes active under its name and has an entry in the roster, which gains no other entry; earlier sends are kept, and every new send is `SERVER: {name} joined` to someone other than the joiner |
| ChatServer.Cleanup | simple_server_no_locks_Version9.py:52-62 | the handler finishes; the roster keeps only old entries, none of them the leaver's; earlier sends are kept, and every new send is `SERVER: {name} left` to someone other than the leaver |
| ChatServer.Step | simple_server_no_locks_Version9.py:28-62 | one event keeps every earlier send, changes the phase of no connection but its own, registers a connection only on accept, and moves a handler only forward: from awaiting its name to joined or finished, and from joined to finished |
| ChatServer.JoinStep | simple_server_no_locks_Version9.py:32-39 | a non-empty first line makes the handler join under its display name; a handler that has not joined has no roster entry |
| ChatServer.JoinSpec | simple_server_no_locks_Version9.py:37-39 | a join adds exactly one entry for the joiner, appended at the end when no send fails; `SERVER: {name} joined` goes to every other entry once and never to the joiner |
| ChatServer.EofBeforeName | simple_server_no_locks_Version9.py:32-62 | end of stream before a name finishes the handler without a roster entry, but the `finally` block still sends `SERVER:  left`, with an empty name, to every entry |
| ChatServer.ReadFailedBeforeName | simple_server_no_locks_Version9.py:31-61 | a read that raises before the name is set finishes the handler and sends nothing, because the `finally` block stops at the unbound `name` |
| ChatServer.ExitStep | simple_server_no_locks_Version9.py:42-62 | an `EXIT` line in any case sends `DONE` to that connection only, first; the line is never broadcast; the handler finishes, its entries are removed, and after `DONE` every other connection gets the leave notice once per entry it had |
| ChatServer.ExitSpellingsEndSession | simple_server_no_locks_Version9.py:42-43 | `exit` with a CRLF ending and `Exit` end the session; ` EXIT` with a leading space does not |
| ChatServer.MessageStep | simple_server_no_locks_Version9.py:49-51 | any other line goes to every other entry once as `{name}: {line}`, never back to the sender; the sender stays joined |
| ChatServer.CleanupSpec | simple_server_no_locks_Version9.py:52-62 | cleanup removes every entry of the connection and then sends `SERVER: {name} left` once to each remaining entry, never to the leaver |
| ChatServer.CleanupTwice | simple_server_no_locks_Version9.py:53-56 | cleaning up twice leaves the roster as cleaning up once does |
| ChatServer.FinishedIsFinal | simple_server_no_locks_Version9.py:52-62 | a finished handler reacts to nothing |
| ChatServer.StepKeepsValid | simple_server_no_locks_Version9.py:28-62 | every event keeps each roster entry the entry of a joined handler under its display name, with at most one entry per connection |
| ChatServer.RunKeepsValid | simple_server_no_locks_Version9.py:64-73 | the same holds after any trace of accepts, reads and failed sends |
| ChatServer.RunKeepsExact | simple_server_no_locks_Version9.py:37-56 | when no send fails, the roster holds exactly the handlers that have joined and not finished |
| OldChat.BroadcastFrom | simple_chat_server.py:15-21 | every send goes to a listed client other than the sender, carries the message, and is delivered exactly when it does not fail |
| OldChat.BroadcastFromRoster | simple_chat_server.py:15-21 | after the pass the list has no duplicates and holds the old clients minus those whose send failed; the sender is never removed |
| OldChat.BroadcastFromWithoutFailure | simple_chat_server.py:11-18 | when no send fails, every client except the sender gets the message once, in list order, and the list is unchanged |
| OldChat.EveryoneMembers | simple_chat_server.py:12-14 | the reference fan-out that the docstring promises reaches exactly the listed clients other than the sender |
| OldChat.FailureSkipsSuccessor | simple_chat_server.py:15-21 | when a send fails, the client listed after the failed one gets nothing on that pass although it stays on the list; the failed client is removed |
| OldChat.FirstFailureRemoved | simple_chat_server.py:19-21 | the first client whose send fails is removed |
| OldChat.SkipExample | simple_chat_server.py:15-21 | with clients 1, 2 and 3, sender 1 and client 2 failing, only the failed send to 2 is attempted, and 3 hears nothing |
| OldChat.AcceptRegisters | simple_chat_server.py:69-71 | an accepted socket joins the list before it has a nickname, and it is sent the welcome prompt |
| OldChat.NamelessClientHearsChat | simple_chat_server.py:23-46 | a listed client still waiting for its nickname already receives other clients' chat when no send fails and no listed socket is closed |
| OldChat.NicknameIsFirstChunk | simple_chat_server.py:29-35 | the nickname is the first chunk stripped, without line framing; the join notice never goes to the new client, and when no send fails and no listed socket is closed, every other listed client gets it exactly once, in list order, with the list unchanged |
| OldChat.PipelinedNickname | simple_chat_server.py:29 | a name and a line sent in one chunk become one nickname with a newline inside it |
| OldChat.NicknameErrorStaysListed | simple_chat_server.py:28-32 | a failed nickname read closes the socket and ends the handler but leaves the socket on the list, with nothing sent |
| OldChat.ClosedListedSocketRemoved | simple_chat_server.py:15-21 | when the only closed socket on the list is reached by a chat broadcast, the send to it fails and it is removed, even when no open socket fails |
| OldChat.ChatStep | simple_chat_server.py:40-46 | a chunk goes only to other listed clients, as `{nickname}: {chunk}`; a listed sender stays listed, and a sender already off the list still chats; with no failed send and no closed socket listed, every other listed client gets it exactly once, in list order, and the list is unchanged |
| OldChat.LeaveStep | simple_chat_server.py:51-56 | on end of stream or a failed read the client is removed, and so is every client whose send of the leave notice fails; the notice never goes to the leaver; when no send fails and no listed socket is closed, every other listed client gets it exactly once, in list order, and the list loses only the leaver |
| OldChat.GoneIsFinal | simple_chat_server.py:57-58 | a closed connection reacts to nothing |
| OldChat.Broadcast | simple_chat_server.py:11-21 | the list only loses clients; earlier sends are kept; each new send carries the message to a listed client other than the sender, and is delivered exactly when the socket is open and the send does not fail |
| OldChat.Leave | simple_chat_server.py:51-57 | the handler ends and its socket is closed; the list only loses clients; every new send is the leave notice to someone other than the leaver |
| OldChat.Step | simple_chat_server.py:23-72 | one event keeps every earlier send and changes no other handler's phase; closed sockets stay closed and only the event's own socket can become closed; no send to a closed socket is ever delivered |
| OldChat.StepKeepsValid | simple_chat_server.py:11-58 | every event keeps the list free of duplicates, and every listed socket is a connection the server has accepted |
| OldChat.RunKeepsValid | simple_chat_server.py:68-72 | the same holds after any trace of events |
| Bridge.Step | bridge_turn_server.py:77-106 | a relayed line goes only to the other peer as `From {name}: {line}`, and the turn passes to that peer; end of stream closes the bridge; role lines are sent only before the relay starts |
| Bridge.Serve | bridge_turn_server.py:77-106 | the bridge always ends with both sockets closed; once relaying from one peer, it forwards lines to the other peer, then back, in strict alternation, so no peer gets two relayed lines in a row |
| Bridge.NoNameFromA | bridge_turn_server.py:56-59 | without A's name the bridge closes before anything is sent and B's input is never read |
| Bridge.NoNameFromB | bridge_turn_server.py:66-69 | without B's name no role line is sent |
| Bridge.RolesFirst | bridge_turn_server.py:73-74 | the first two sends are the `ROLE:A` line to A and then the `ROLE:B` line to B, and relaying follows |
| Bridge.RelayStops | bridge_turn_server.py:80-91 | after end of stream or `EXIT`, nothing more is forwarded |
| Bridge.ExitEndsSession | bridge_turn_server.py:86-91 | an exact `EXIT` sends `DONE` to the other peer, then to the sender, and closes; it is never forwarded |
| Bridge.ExitIsCaseSensitive | bridge_turn_server.py:86 | any line other than exactly `EXIT`, including `exit`, keeps the relay going |
| Bridge.PeerLostNotice | bridge_turn_server.py:80-84 | end of stream from one peer sends `NOTICE: Peer {name} disconnected` to the other and closes |
| Bridge.LostPeerEnds | bridge_turn_server.py:96-99 | a peer that closes on its turn ends the session with that one notice |
| Bridge.PipelinedExitLost | bridge_turn_server.py:33-36 | a line and `EXIT` typed into one chunk: `EXIT` is discarded, and the session ends only when the peer disconnects, with a notice instead of `DONE` |
| TurnClient.Step | turn_client_Version3.py:36-87 | the client sends at most one line per step, and only when it reads from the console; end of input always finishes it |
| TurnClient.RoleFromFirstLine | turn_client_Version3.py:44-49 | the client starts on its turn exactly when the first server line starts with `ROLE:A` |
| TurnClient.EmptyLineIgnored | turn_client_Version3.py:56-58 | an empty line on the client's turn is not sent, and the turn stays |
| TurnClient.ExitEndsClient | turn_client_Version3.py:59-67 | after sending `EXIT` the client reads at most one more line, whatever it is, and ends |
| TurnClient.TwoLinesPerTurn | turn_client_Version3.py:69-87 | after a line of its own the client reads the peer's reply, clears its turn, and needs a second line other than `DONE` before it may type again |
| TurnClient.WaitingEnds | turn_client_Version3.py:77-87 | off turn, end of stream or an exact `DONE` ends the client; any other line gives it the turn |
| TurnSystem.RoleLineAReads | bridge_turn_server.py:73 | the bridge's first role line survives the client's strip and starts with `ROLE:A` |
| TurnSystem.RoleLineBReads | bridge_turn_server.py:74 | the second role line survives the strip and does not start with `ROLE:A` |
| TurnSystem.ForwardIsNotDone | turn_client_Version3.py:83 | a forwarded line never reads as `DONE` |
| TurnSystem.HandshakeRun | bridge_turn_server.py:53-74 | from the start, the two names and the role lines bring A to its turn and B to waiting, with the bridge reading A |
| TurnSystem.RelaysFromA | bridge_turn_server.py:79-92 | the bridge reads A's line and places `From {nameA}: {line}` in B's queue, then turns to B |
| TurnSystem.RelaysFromB | bridge_turn_server.py:95-106 | the bridge reads B's line and places `From {nameB}: {line}` in A's queue, then turns to A |
| TurnSystem.OpeningRun | turn_client_Version3.py:52-87 | after the handshake and one line each way, A is waiting for a line, B is awaiting a reply, and the bridge reads A |
| TurnSystem.StuckAfterOneExchange | bridge_turn_server.py:94-95 | in that state no program can move and none has finished |
| TurnSystem.DeadlockAfterOneExchange | turn_client_Version3.py:69-75 | the two clients and the bridge, run as written with one ordinary line typed on each side, reach a state where all three wait on reads nobody will satisfy |

## Left out

- Socket creation, `setsockopt`, `bind`, `listen` and the accept loops are not modelled. An accepted connection is an event or a fresh connection number.
- Threads are not modelled. Each handler step is one atomic event. Races on the unsynchronised lists are not modelled, and the model makes no thread-safety claim.
- UTF-8 encoding and decoding are the identity on `seq<char>`. A multi-byte character split across two chunks, and the `errors="replace"` substitution, are not modelled.
- The chunk sizes 1024 and 4096 are not modelled. Chunks are arbitrary strings, and an empty chunk means end of stream.
- `print` logging has no effect on the protocol and is not modelled.
- Text.ExitSpellings: counts only ASCII case folding. Python's `upper()` also maps a few non-ASCII letters to ASCII, such as the dotless `ı` to `I`, so in the source a line such as `exıt` also ends a session.
- Text.ParseInt: `int()` also accepts underscores between digits and non-ASCII decimal digits. Neither is modelled. A line made only of such digits is not a number in the model.
- Greeting.Handle: assumes every `sendall` succeeds. In the source a failed send ends the echo loop through its `except` clause.
- Bridge.Step: records what the bridge sends, not whether each send succeeded. `send_line` reports failure by its return value, and the bridge never reads it.
- KeyboardInterrupt at any console prompt is not modelled.
- End of input at the turn client's prompts is modelled: at the name prompt the client never connects (`Absent`), and at the `> ` prompt the uncaught `EOFError` ends the client after the `finally` block closes its socket (`Ended`).
- End of input at the ladder client's prompts (number_ladder_client_Version2.py:31-33) is not modelled. At the name prompt it ends the program; at the target prompt it is caught like a target that is not a number.
- Ladder.Climb: the `except Exception` around the ladder loop (number_ladder_server_Version2.py:49-71) is not modelled. Every `sendall` and `recv` is taken to succeed, so a connection reset during the ladder is not an ending.
- Ladder.Serve: a `recv` or `sendall` that raises outside that `try` (number_ladder_server_Version2.py:33-37 and :44) is not modelled. In the source it propagates out of `handle_connection` and the `while True` loop in `main` (number_ladder_server_Version2.py:79-82), which ends the whole server.
- Greeting.Handle: likewise, a `recv` in `recv_line` or the greeting `sendall` (greeting_server_Version2.py:22 and :39) that raises ends the whole server through `main` (greeting_server_Version2.py:58-61). This is not modelled.
- Bridge.Serve: a `recv` that raises in `recv_line_blocking` (bridge_turn_server.py:29) is not modelled. In the source it ends the bridge with a traceback.
- Ladder.Answer: the ladder client's `sendall` and `recv` are taken to succeed. In the source a failure raises out of `main`.
- TurnClient.Step: the turn client's `sendall` and `recv` are taken to succeed. In the source a failure raises out of `main`, and the socket is closed on the way out.
- OldChat.Step: a socket whose welcome send failed is not marked closed. Its handler thread died with the exception, but the socket was never closed and stays listed; whether later sends to it fail is left to the `failing` parameter.
- TurnSystem.OpeningRun: each `sendall` is one line on the wire. This composition does not model coalesced lines; their loss is shown separately by `Bridge.PipelinedExitLost` and `Ladder.DoneLostWhenCoalesced`.
- The client programs other than the turn client and the ladder client are not modelled: `threaded_chat_client.py`, `simple_client_no_locks_Version9.py`, `greeting_client_Version2.py` and `echo_client.py`. They hold console and receiver loops and no protocol logic.
- The echo servers, `echo_server.py` and `threaded_echo_server.py`, are not modelled. They only send back what they receive.
