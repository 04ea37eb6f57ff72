/**
 * The first chat server (`simple_chat_server.py`). Every accepted socket is put
 * on the shared `clients` list before its handler has asked for a nickname. The
 * nickname is whatever the first `recv` returns, stripped, with no line framing.
 * `broadcast` walks the list with a `for` loop while removing the sockets whose
 * `sendall` fails.
 *
 * Python's list iterator walks by position over the list as it is now. So when a
 * failed client is removed, its successor moves into the slot just visited and
 * is never tried. Threads are interleaved one whole event at a time. Which sends
 * to open sockets fail is chosen by the environment; a send to a socket the server
 * has closed always fails.
 */
module OldChat {
  import opened Common
  import opened Text

  /** The result of one `broadcast`: the `sendall` attempts in order and what is left of `clients`. */
  datatype Pass = Pass(sends: seq<Send>, clients: seq<ConnId>)

  /** The `for client in clients` loop, `i` being the position the list iterator will read next. */
  function BroadcastFrom(clients: seq<ConnId>, i: nat, msg: string, sender: ConnId, failing: set<ConnId>): (p: Pass)
    ensures forall k | 0 <= k < |p.sends| ::
      && p.sends[k].to != sender
      && p.sends[k].to in clients
      && p.sends[k].text == msg
      && (p.sends[k].delivered <==> p.sends[k].to !in failing)
    decreases |clients| - i
  {
    if i >= |clients| then Pass([], clients)
    else
      var c := clients[i];
      if c == sender then BroadcastFrom(clients, i + 1, msg, sender, failing)
      else if c in failing then
        RemoveFirstLength(clients, c);
        RemoveFirstMembers(clients, c);
        var p := BroadcastFrom(RemoveFirst(clients, c), i + 1, msg, sender, failing);
        Pass([Send(c, msg, false)] + p.sends, p.clients)
      else
        var p := BroadcastFrom(clients, i + 1, msg, sender, failing);
        Pass([Send(c, msg, true)] + p.sends, p.clients)
  }

  /** `broadcast(message, _sender_conn)`. */
  function BroadcastList(clients: seq<ConnId>, msg: string, sender: ConnId, failing: set<ConnId>): Pass
  {
    BroadcastFrom(clients, 0, msg, sender, failing)
  }

  lemma {:induction false} RemoveFirstMembers<T>(s: seq<T>, x: T)
    ensures forall y | y in RemoveFirst(s, x) :: y in s
  {
    if |s| > 0 && s[0] != x {
      RemoveFirstMembers(s[1..], x);
    }
  }

  /** A pass only ever removes clients from the list. */
  lemma {:induction false} BroadcastFromMembers(clients: seq<ConnId>, i: nat, msg: string, sender: ConnId, failing: set<ConnId>)
    ensures forall x | x in BroadcastFrom(clients, i, msg, sender, failing).clients :: x in clients
    decreases |clients| - i
  {
    if i < |clients| {
      var c := clients[i];
      if c == sender || c !in failing {
        BroadcastFromMembers(clients, i + 1, msg, sender, failing);
      } else {
        RemoveFirstLength(clients, c);
        RemoveFirstMembers(clients, c);
        BroadcastFromMembers(RemoveFirst(clients, c), i + 1, msg, sender, failing);
      }
    }
  }

  /** The addressees whose send failed. */
  function FailedTargets(sends: seq<Send>): set<ConnId>
  {
    if |sends| == 0 then {}
    else (if sends[0].delivered then {} else {sends[0].to}) + FailedTargets(sends[1..])
  }

  lemma {:induction false} FailedTargetsCons(s: Send, rest: seq<Send>)
    ensures FailedTargets([s] + rest) == (if s.delivered then {} else {s.to}) + FailedTargets(rest)
  {
    assert ([s] + rest)[1..] == rest;
  }

  lemma {:induction false} FailedTargetsSent(sends: seq<Send>, x: ConnId)
    requires x in FailedTargets(sends)
    ensures exists k | 0 <= k < |sends| :: sends[k].to == x && !sends[k].delivered
  {
    if !(sends[0].to == x && !sends[0].delivered) {
      FailedTargetsSent(sends[1..], x);
      var k :| 0 <= k < |sends[1..]| && sends[1..][k].to == x && !sends[1..][k].delivered;
      assert sends[k + 1] == sends[1..][k];
    }
  }

  lemma {:induction false} FailedTargetsAreTargets(sends: seq<Send>, x: ConnId)
    requires forall k | 0 <= k < |sends| :: sends[k].to != x
    ensures x !in FailedTargets(sends)
  {
    if |sends| > 0 {
      FailedTargetsAreTargets(sends[1..], x);
    }
  }

  /**
   * On a list without repeats, a pass removes exactly the clients whose send failed, keeps the
   * list free of repeats and never removes the sender.
   */
  lemma {:induction false} BroadcastFromRoster(clients: seq<ConnId>, i: nat, msg: string, sender: ConnId, failing: set<ConnId>)
    requires NoDup(clients)
    ensures var p := BroadcastFrom(clients, i, msg, sender, failing);
      && NoDup(p.clients)
      && Elems(p.clients) == Elems(clients) - FailedTargets(p.sends)
      && (sender in clients ==> sender in p.clients)
    decreases |clients| - i
  {
    var p := BroadcastFrom(clients, i, msg, sender, failing);
    if i < |clients| {
      var c := clients[i];
      if c == sender {
        BroadcastFromRoster(clients, i + 1, msg, sender, failing);
      } else if c in failing {
        var rest := RemoveFirst(clients, c);
        RemoveFirstNoDup(clients, c);
        RemoveFirstLength(clients, c);
        BroadcastFromRoster(rest, i + 1, msg, sender, failing);
        var q := BroadcastFrom(rest, i + 1, msg, sender, failing);
        FailedTargetsCons(Send(c, msg, false), q.sends);
        assert sender in clients ==> sender in Elems(rest);
      } else {
        BroadcastFromRoster(clients, i + 1, msg, sender, failing);
        var q := BroadcastFrom(clients, i + 1, msg, sender, failing);
        FailedTargetsCons(Send(c, msg, true), q.sends);
      }
    }
    FailedTargetsAreTargets(p.sends, sender);
  }

  /** On a list without repeats, a pass started at position `i` only tries clients at position `i` or later. */
  lemma {:induction false} BroadcastFromTargets(clients: seq<ConnId>, i: nat, msg: string, sender: ConnId, failing: set<ConnId>)
    requires NoDup(clients) && i <= |clients|
    ensures forall k | 0 <= k < |BroadcastFrom(clients, i, msg, sender, failing).sends| ::
      BroadcastFrom(clients, i, msg, sender, failing).sends[k].to in clients[i..]
    decreases |clients| - i
  {
    if i < |clients| {
      var c := clients[i];
      assert forall x | x in clients[i + 1..] :: x in clients[i..];
      if c == sender {
        BroadcastFromTargets(clients, i + 1, msg, sender, failing);
        var q := BroadcastFrom(clients, i + 1, msg, sender, failing);
        assert BroadcastFrom(clients, i, msg, sender, failing) == q;
        assert forall k | 0 <= k < |q.sends| :: q.sends[k].to in clients[i + 1..];
      } else if c in failing {
        var rest := RemoveFirst(clients, c);
        RemoveFirstNoDup(clients, c);
        RemoveFirstAt(clients[..i], clients[i..]);
        assert clients[..i] + clients[i..] == clients;
        assert rest == clients[..i] + clients[i + 1..];
        if i + 1 < |clients| {
          assert rest[i + 1..] == clients[i + 2..];
          assert forall x | x in clients[i + 2..] :: x in clients[i..];
          BroadcastFromTargets(rest, i + 1, msg, sender, failing);
        }
      } else {
        BroadcastFromTargets(clients, i + 1, msg, sender, failing);
      }
    }
  }

  /** What the docstring promises: one delivered send to every client of `cs` other than the sender, in list order. */
  function Everyone(cs: seq<ConnId>, msg: string, sender: ConnId): seq<Send>
  {
    if |cs| == 0 then []
    else (if cs[0] == sender then [] else [Send(cs[0], msg, true)]) + Everyone(cs[1..], msg, sender)
  }

  lemma {:induction false} EveryoneMembers(cs: seq<ConnId>, msg: string, sender: ConnId, x: ConnId)
    ensures Send(x, msg, true) in Everyone(cs, msg, sender) <==> x in cs && x != sender
  {
    if |cs| > 0 {
      EveryoneMembers(cs[1..], msg, sender, x);
      assert x in cs <==> x == cs[0] || x in cs[1..];
    }
  }

  /** When no send fails, a pass from position `i` keeps the list and reaches every client after `i` but the sender. */
  lemma {:induction false} BroadcastFromWithoutFailure(clients: seq<ConnId>, i: nat, msg: string, sender: ConnId, failing: set<ConnId>)
    requires i <= |clients|
    requires forall k | i <= k < |clients| :: clients[k] == sender || clients[k] !in failing
    ensures BroadcastFrom(clients, i, msg, sender, failing) == Pass(Everyone(clients[i..], msg, sender), clients)
    decreases |clients| - i
  {
    if i < |clients| {
      BroadcastFromWithoutFailure(clients, i + 1, msg, sender, failing);
      assert clients[i..][1..] == clients[i + 1..];
    }
  }

  /**
   * When the first failing client sits at position `j`, removing it moves its successor into
   * position `j` and the loop carries on at `j + 1`. The successor gets no send and stays on the list.
   */
  lemma {:induction false} FailureSkipsSuccessorFrom(clients: seq<ConnId>, i: nat, j: nat, msg: string, sender: ConnId, failing: set<ConnId>)
    requires NoDup(clients) && i <= j && j + 1 < |clients|
    requires clients[j] != sender && clients[j] in failing
    requires forall k | i <= k < j :: clients[k] == sender || clients[k] !in failing
    ensures forall k | 0 <= k < |BroadcastFrom(clients, i, msg, sender, failing).sends| ::
      BroadcastFrom(clients, i, msg, sender, failing).sends[k].to != clients[j + 1]
    decreases j - i
  {
    var c := clients[i];
    if i == j {
      var rest := RemoveFirst(clients, c);
      RemoveFirstNoDup(clients, c);
      RemoveFirstAt(clients[..i], clients[i..]);
      assert clients[..i] + clients[i..] == clients;
      assert rest == clients[..i] + clients[i + 1..];
      assert rest[i + 1..] == clients[i + 2..];
      BroadcastFromTargets(rest, i + 1, msg, sender, failing);
      var q := BroadcastFrom(rest, i + 1, msg, sender, failing);
      assert BroadcastFrom(clients, i, msg, sender, failing).sends == [Send(c, msg, false)] + q.sends;
      assert forall m | j + 2 <= m < |clients| :: clients[m] != clients[j + 1];
      assert clients[j + 1] !in clients[i + 2..];
    } else {
      FailureSkipsSuccessorFrom(clients, i + 1, j, msg, sender, failing);
    }
  }

  /**
   * The skipped-successor defect of `broadcast`. Suppose the first failing client is at position `j`
   * and another client follows it. Then the failing client is removed, and the client right after
   * it receives nothing in this broadcast but remains registered.
   */
  lemma FailureSkipsSuccessor(clients: seq<ConnId>, j: nat, msg: string, sender: ConnId, failing: set<ConnId>)
    requires NoDup(clients) && j + 1 < |clients|
    requires clients[j] != sender && clients[j] in failing
    requires forall k | 0 <= k < j :: clients[k] == sender || clients[k] !in failing
    ensures var p := BroadcastList(clients, msg, sender, failing);
      && (forall k | 0 <= k < |p.sends| :: p.sends[k].to != clients[j + 1])
      && clients[j + 1] in p.clients
      && clients[j] !in p.clients
  {
    var p := BroadcastList(clients, msg, sender, failing);
    FailureSkipsSuccessorFrom(clients, 0, j, msg, sender, failing);
    BroadcastFromRoster(clients, 0, msg, sender, failing);
    FailedTargetsAreTargets(p.sends, clients[j + 1]);
    assert clients[j + 1] in Elems(clients);
    assert clients[j + 1] in Elems(p.clients);
    FirstFailureRemoved(clients, j, msg, sender, failing);
  }

  /** The first failing client is tried, fails and is removed. */
  lemma FirstFailureRemoved(clients: seq<ConnId>, j: nat, msg: string, sender: ConnId, failing: set<ConnId>)
    requires NoDup(clients) && j < |clients|
    requires clients[j] != sender && clients[j] in failing
    requires forall k | 0 <= k < j :: clients[k] == sender || clients[k] !in failing
    ensures clients[j] in FailedTargets(BroadcastList(clients, msg, sender, failing).sends)
  {
    FirstFailureRemovedFrom(clients, 0, j, msg, sender, failing);
  }

  lemma {:induction false} FirstFailureRemovedFrom(clients: seq<ConnId>, i: nat, j: nat, msg: string, sender: ConnId, failing: set<ConnId>)
    requires NoDup(clients) && i <= j < |clients|
    requires clients[j] != sender && clients[j] in failing
    requires forall k | i <= k < j :: clients[k] == sender || clients[k] !in failing
    ensures clients[j] in FailedTargets(BroadcastFrom(clients, i, msg, sender, failing).sends)
    decreases j - i
  {
    var c := clients[i];
    if i == j {
      RemoveFirstLength(clients, c);
      var q := BroadcastFrom(RemoveFirst(clients, c), i + 1, msg, sender, failing);
      FailedTargetsCons(Send(c, msg, false), q.sends);
    } else {
      var q := BroadcastFrom(clients, i + 1, msg, sender, failing);
      if c != sender {
        FailedTargetsCons(Send(c, msg, true), q.sends);
      }
      FirstFailureRemovedFrom(clients, i + 1, j, msg, sender, failing);
    }
  }

  /** Three clients, the first one sending and the second one gone: the third is never told. */
  lemma SkipExample()
    ensures BroadcastList([1, 2, 3], "hi", 1, {2}) == Pass([Send(2, "hi", false)], [1, 3])
  {
    assert RemoveFirst([1, 2, 3], 2) == [1, 3];
  }

  // ---------------------------------------------------------------------------
  // The accept loop and `handle_client`
  // ---------------------------------------------------------------------------

  /** Where a handler thread is: waiting for the nickname chunk, chatting, or returned. */
  datatype Phase = AwaitingNick | Chatting(nick: string) | Gone

  /**
   * The shared `clients` list, each accepted socket's handler, the sockets the server has closed,
   * and every `sendall` attempted so far.
   */
  datatype Server = Server(clients: seq<ConnId>, phases: map<ConnId, Phase>, closed: set<ConnId>, log: seq<Send>)

  /** What can happen next: a new connection, or one `recv` on a handler's socket returning data or raising. */
  datatype Event = Accept(conn: ConnId) | Recv(conn: ConnId, data: string) | RecvFailed(conn: ConnId)

  const Welcome: string := "Welcome! Enter your nickname: "

  function JoinNotice(nick: string): string { nick + " has joined the chat!\n" }

  /** A chat message: the chunk exactly as received, which carries its own newline if the client sent one. */
  function ChatLine(nick: string, data: string): string { nick + ": " + data }

  function LeaveNotice(nick: string): string { nick + " has left the chat.\n" }

  const Init: Server := Server([], map[], {}, [])

  /** `broadcast` applied to the server's list; sends to closed sockets raise like those in `failing`. */
  function Broadcast(s: Server, msg: string, sender: ConnId, failing: set<ConnId>): (r: Server)
    ensures r.phases == s.phases && r.closed == s.closed
    ensures forall x | x in r.clients :: x in s.clients
    ensures |s.log| <= |r.log| && r.log[..|s.log|] == s.log
    ensures forall k | |s.log| <= k < |r.log| ::
      && r.log[k].to != sender && r.log[k].to in s.clients && r.log[k].text == msg
      && (r.log[k].delivered <==> r.log[k].to !in failing && r.log[k].to !in s.closed)
  {
    var p := BroadcastList(s.clients, msg, sender, failing + s.closed);
    BroadcastFromMembers(s.clients, 0, msg, sender, failing + s.closed);
    s.(clients := p.clients, log := s.log + p.sends)
  }

  /** The cleanup after the chat loop: drop the socket if it is still listed, announce the departure, close the socket. */
  function Leave(s: Server, c: ConnId, nick: string, failing: set<ConnId>): (r: Server)
    ensures r.phases == s.phases[c := Gone] && r.closed == s.closed + {c}
    ensures forall x | x in r.clients :: x in s.clients
    ensures |s.log| <= |r.log| && r.log[..|s.log|] == s.log
    ensures forall k | |s.log| <= k < |r.log| :: r.log[k].to != c && r.log[k].text == LeaveNotice(nick)
  {
    RemoveFirstMembers(s.clients, c);
    var t := Broadcast(s.(clients := RemoveFirst(s.clients, c), phases := s.phases[c := Gone]), LeaveNotice(nick), c, failing);
    t.(closed := t.closed + {c})
  }

  /**
   * One event, the sends to `failing` raising. Socket numbers are never reused, and events for
   * unknown or finished handlers change nothing. The log only grows, only the event's own handler
   * changes phase, closed sockets stay closed, and no send to a closed socket is ever delivered.
   */
  function Step(s: Server, e: Event, failing: set<ConnId>): (r: Server)
    ensures |s.log| <= |r.log| && r.log[..|s.log|] == s.log
    ensures forall d | d != e.conn :: (d in r.phases <==> d in s.phases) && (d in s.phases ==> r.phases[d] == s.phases[d])
    ensures s.closed <= r.closed && r.closed <= s.closed + {e.conn}
    ensures (forall d | d in s.closed :: d in s.phases) ==>
      forall k | |s.log| <= k < |r.log| :: r.log[k].delivered ==> r.log[k].to !in r.closed
  {
    match e
    case Accept(c) =>
      if c in s.phases then s
      else
        // the welcome `sendall` sits outside any `try`: when it raises, the thread dies and the socket stays listed
        s.(clients := s.clients + [c],
           phases := s.phases[c := if c in failing then Gone else AwaitingNick],
           log := s.log + [Send(c, Welcome, c !in failing)])
    case Recv(c, data) =>
      if c !in s.phases then s
      else match s.phases[c] {
        case AwaitingNick =>
          var nick := Strip(data);
          Broadcast(s.(phases := s.phases[c := Chatting(nick)]), JoinNotice(nick), c, failing)
        case Chatting(nick) =>
          if data == "" then Leave(s, c, nick, failing)
          else Broadcast(s, ChatLine(nick, data), c, failing)
        case Gone => s
      }
    case RecvFailed(c) =>
      if c !in s.phases then s
      else match s.phases[c] {
        // the socket is closed but never taken off the list
        case AwaitingNick => s.(phases := s.phases[c := Gone], closed := s.closed + {c})
        case Chatting(nick) => Leave(s, c, nick, failing)
        case Gone => s
      }
  }

  /** A run: one event per tick with that tick's failing sends. */
  function Run(s: Server, events: seq<Event>, failing: seq<set<ConnId>>): Server
    requires |failing| == |events|
    decreases |events|
  {
    if |events| == 0 then s else Run(Step(s, events[0], failing[0]), events[1..], failing[1..])
  }

  /** Every listed socket is a distinct accepted connection, and only finished handlers' sockets are closed. */
  predicate Valid(s: Server)
  {
    && NoDup(s.clients)
    && (forall c | c in s.clients :: c in s.phases)
    && (forall c | c in s.closed :: c in s.phases && s.phases[c] == Gone)
  }

  lemma BroadcastKeepsValid(s: Server, msg: string, sender: ConnId, failing: set<ConnId>)
    requires Valid(s)
    ensures Valid(Broadcast(s, msg, sender, failing))
  {
    BroadcastFromRoster(s.clients, 0, msg, sender, failing + s.closed);
    var p := BroadcastList(s.clients, msg, sender, failing + s.closed);
    assert forall c | c in p.clients :: c in Elems(p.clients);
  }

  lemma StepKeepsValid(s: Server, e: Event, failing: set<ConnId>)
    requires Valid(s)
    ensures Valid(Step(s, e, failing))
  {
    match e
    case Accept(c) =>
      if c !in s.phases {
        var cs := s.clients + [c];
        assert forall i | 0 <= i < |s.clients| :: cs[i] == s.clients[i] && cs[i] != c;
      }
    case Recv(c, data) =>
      if c in s.phases {
        match s.phases[c] {
          case AwaitingNick =>
            BroadcastKeepsValid(s.(phases := s.phases[c := Chatting(Strip(data))]), JoinNotice(Strip(data)), c, failing);
          case Chatting(nick) =>
            if data == "" {
              LeaveKeepsValid(s, c, nick, failing);
            } else {
              BroadcastKeepsValid(s, ChatLine(nick, data), c, failing);
            }
          case Gone =>
        }
      }
    case RecvFailed(c) =>
      if c in s.phases {
        match s.phases[c] {
          case AwaitingNick =>
          case Chatting(nick) => LeaveKeepsValid(s, c, nick, failing);
          case Gone =>
        }
      }
  }

  lemma LeaveKeepsValid(s: Server, c: ConnId, nick: string, failing: set<ConnId>)
    requires Valid(s) && c in s.phases
    ensures Valid(Leave(s, c, nick, failing))
  {
    RemoveFirstNoDup(s.clients, c);
    var t := s.(clients := RemoveFirst(s.clients, c), phases := s.phases[c := Gone]);
    assert forall d | d in t.clients :: d in Elems(t.clients);
    BroadcastKeepsValid(t, LeaveNotice(nick), c, failing);
  }

  /** Every run from the empty server keeps the list free of repeats and made of accepted sockets. */
  lemma {:induction false} RunKeepsValid(s: Server, events: seq<Event>, failing: seq<set<ConnId>>)
    requires |failing| == |events| && Valid(s)
    ensures Valid(Run(s, events, failing))
    decreases |events|
  {
    if |events| > 0 {
      StepKeepsValid(s, events[0], failing[0]);
      RunKeepsValid(Step(s, events[0], failing[0]), events[1..], failing[1..]);
    }
  }

  /**
   * A socket is listed, and so receives broadcasts, from the moment it is accepted. That is before
   * it has a nickname, and even when the welcome could not be sent and its handler died.
   */
  lemma AcceptRegisters(s: Server, c: ConnId, failing: set<ConnId>)
    requires c !in s.phases
    ensures var s' := Step(s, Accept(c), failing);
      && s'.clients == s.clients + [c]
      && s'.phases[c] == (if c in failing then Gone else AwaitingNick)
      && s'.log == s.log + [Send(c, Welcome, c !in failing)]
  {
  }

  /**
   * A listed client that has not yet sent its nickname still gets every chat line when no send
   * fails and no listed socket has been closed.
   */
  lemma NamelessClientHearsChat(s: Server, c: ConnId, d: ConnId, data: string)
    requires c in s.clients && c != d && c in s.phases && s.phases[c] == AwaitingNick
    requires forall x | x in s.clients :: x !in s.closed
    requires d in s.phases && s.phases[d].Chatting? && data != ""
    ensures Send(c, ChatLine(s.phases[d].nick, data), true) in Step(s, Recv(d, data), {}).log
  {
    var msg := ChatLine(s.phases[d].nick, data);
    BroadcastFromWithoutFailure(s.clients, 0, msg, d, {} + s.closed);
    assert s.clients[0..] == s.clients;
    EveryoneMembers(s.clients, msg, d, c);
  }

  /**
   * The nickname is the whole first chunk, stripped, and may be empty. Text the client sent after
   * the name in the same chunk becomes part of the name.
   */
  lemma NicknameIsFirstChunk(s: Server, c: ConnId, data: string, failing: set<ConnId>)
    requires c in s.phases && s.phases[c] == AwaitingNick
    ensures var s' := Step(s, Recv(c, data), failing);
      && s'.phases == s.phases[c := Chatting(Strip(data))]
      && (forall k | |s.log| <= k < |s'.log| :: s'.log[k].to != c && s'.log[k].text == JoinNotice(Strip(data)))
      && (failing == {} && (forall x | x in s.clients :: x !in s.closed) ==>
           s'.log == s.log + Everyone(s.clients, JoinNotice(Strip(data)), c) && s'.clients == s.clients)
  {
    if failing == {} && (forall x | x in s.clients :: x !in s.closed) {
      BroadcastFromWithoutFailure(s.clients, 0, JoinNotice(Strip(data)), c, {} + s.closed);
      assert s.clients[0..] == s.clients;
    }
  }

  /** A name and a first message pipelined into one chunk make a two-line nickname. */
  lemma PipelinedNickname(s: Server, c: ConnId, name: string, line: string, failing: set<ConnId>)
    requires c in s.phases && s.phases[c] == AwaitingNick
    requires |name| > 0 && !IsSpace(name[0]) && |line| > 0 && !IsSpace(line[|line| - 1])
    ensures Step(s, Recv(c, name + "\n" + line + "\n"), failing).phases[c] == Chatting(name + "\n" + line)
  {
    var nick := name + "\n" + line;
    assert nick[0] == name[0] && nick[|nick| - 1] == line[|line| - 1];
    StripDropsNewline(nick);
  }

  /** When reading the nickname raises, the handler closes its socket and returns; the socket stays listed and nothing is broadcast. */
  lemma NicknameErrorStaysListed(s: Server, c: ConnId, failing: set<ConnId>)
    requires c in s.phases && s.phases[c] == AwaitingNick
    ensures Step(s, RecvFailed(c), failing) == s.(phases := s.phases[c := Gone], closed := s.closed + {c})
  {
  }

  /**
   * A socket left on the list after its nickname read failed is closed, so the next broadcast
   * that reaches it fails there and removes it, even when every open socket accepts the send.
   */
  lemma ClosedListedSocketRemoved(s: Server, c: ConnId, d: ConnId, data: string)
    requires Valid(s) && c in s.clients && c in s.closed && c != d
    requires forall x | x in s.clients && x != c :: x !in s.closed
    requires d in s.phases && s.phases[d].Chatting? && data != ""
    ensures var s' := Step(s, Recv(d, data), {});
      && c !in s'.clients
      && Send(c, ChatLine(s.phases[d].nick, data), false) in s'.log
  {
    var j :| 0 <= j < |s.clients| && s.clients[j] == c;
    assert forall k | 0 <= k < j :: s.clients[k] != c;
    var msg := ChatLine(s.phases[d].nick, data);
    FirstFailureRemoved(s.clients, j, msg, d, {} + s.closed);
    BroadcastFromRoster(s.clients, 0, msg, d, {} + s.closed);
    var p := BroadcastList(s.clients, msg, d, {} + s.closed);
    FailedTargetsSent(p.sends, c);
    assert c !in Elems(p.clients);
  }

  /**
   * A chat chunk goes to every other listed client with the sender's name in front; a listed sender
   * stays listed, and a sender already dropped from the list keeps chatting. When no send fails
   * and no listed socket is closed, every other listed client gets it exactly once, in list
   * order, and the list is unchanged.
   */
  lemma ChatStep(s: Server, c: ConnId, data: string, failing: set<ConnId>)
    requires Valid(s)
    requires c in s.phases && s.phases[c].Chatting? && data != ""
    ensures var s' := Step(s, Recv(c, data), failing);
      && s'.phases == s.phases
      && (c in s.clients ==> c in s'.clients)
      && |s.log| <= |s'.log| && s'.log[..|s.log|] == s.log
      && (forall k | |s.log| <= k < |s'.log| ::
           s'.log[k].to != c && s'.log[k].text == ChatLine(s.phases[c].nick, data))
      && (failing == {} && (forall x | x in s.clients :: x !in s.closed) ==>
           s'.log == s.log + Everyone(s.clients, ChatLine(s.phases[c].nick, data), c) && s'.clients == s.clients)
  {
    var msg := ChatLine(s.phases[c].nick, data);
    BroadcastFromRoster(s.clients, 0, msg, c, failing + s.closed);
    var s' := Step(s, Recv(c, data), failing);
    if c in s.clients {
      assert c in Elems(s'.clients);
    }
    if failing == {} && (forall x | x in s.clients :: x !in s.closed) {
      BroadcastFromWithoutFailure(s.clients, 0, msg, c, failing + s.closed);
      assert s.clients[0..] == s.clients;
    }
  }

  /**
   * The end of a session, by an empty chunk or a failed `recv`. The socket is taken off the list when
   * it is still there; the rest of the list loses only the clients whose leave notice failed. The
   * notice goes to everyone else.
   */
  lemma LeaveStep(s: Server, c: ConnId, e: Event, failing: set<ConnId>)
    requires Valid(s) && c in s.phases && s.phases[c].Chatting?
    requires e == Recv(c, "") || e == RecvFailed(c)
    ensures var s' := Step(s, e, failing);
      var sent := s'.log[|s.log|..];
      && |s.log| <= |s'.log| && s'.log[..|s.log|] == s.log
      && s'.phases == s.phases[c := Gone]
      && Elems(s'.clients) == Elems(s.clients) - {c} - FailedTargets(sent)
      && (forall k | 0 <= k < |sent| :: sent[k].to != c && sent[k].text == LeaveNotice(s.phases[c].nick))
      && (failing == {} && (forall x | x in s.clients :: x !in s.closed) ==>
           s'.log == s.log + Everyone(RemoveFirst(s.clients, c), LeaveNotice(s.phases[c].nick), c)
           && s'.clients == RemoveFirst(s.clients, c))
  {
    var nick := s.phases[c].nick;
    if failing == {} && (forall x | x in s.clients :: x !in s.closed) {
      var rest := RemoveFirst(s.clients, c);
      RemoveFirstMembers(s.clients, c);
      BroadcastFromWithoutFailure(rest, 0, LeaveNotice(nick), c, {} + s.closed);
      assert rest[0..] == rest;
    }
    RemoveFirstNoDup(s.clients, c);
    BroadcastFromRoster(RemoveFirst(s.clients, c), 0, LeaveNotice(nick), c, failing + s.closed);
    var s' := Step(s, e, failing);
    var p := BroadcastList(RemoveFirst(s.clients, c), LeaveNotice(nick), c, failing + s.closed);
    assert s'.log == s.log + p.sends;
    assert s'.log[|s.log|..] == p.sends;
  }

  /** A returned handler ignores everything addressed to it. */
  lemma GoneIsFinal(s: Server, e: Event, failing: set<ConnId>)
    requires e.conn in s.phases && s.phases[e.conn] == Gone
    ensures Step(s, e, failing) == s
  {
  }
}
