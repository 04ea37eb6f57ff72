/**
 * `handle_client` of the thread-per-client chat server, as one state machine
 * over the whole server: each `readline()` result, each failed read and each
 * accepted connection is one atomic event. A handler reads a name line, joins
 * the roster, broadcasts lines until EOF or `EXIT`, and always runs its
 * cleanup (`finally`): remove its entries, then announce that it left.
 */
module ChatServer {
  import opened Common
  import opened Text
  import opened Roster

  /** Where one connection's handler stands. */
  datatype Phase =
    | AwaitingName(addr: string)  // accepted; `addr` is `str(addr)`, the fallback display name
    | Active(name: string)        // joined the roster under `name`
    | Finished                    // the handler has returned

  /** The shared `clients` list, every handler's phase, and every send attempted so far. */
  datatype Server = Server(roster: Roster, phases: map<ConnId, Phase>, log: seq<Send>)

  datatype Event =
    | Accept(conn: ConnId, addr: string)  // `s.accept()` and the thread start
    | Line(conn: ConnId, raw: string)     // what `readline()` returned to that handler; "" is end of stream
    | ReadFailed(conn: ConnId)            // the read raised

  /** The server before any connection. */
  function Init(): Server
  {
    Server([], map[], [])
  }

  /** The display name: the stripped first line, or the address when that is empty. */
  function DisplayName(raw: string, addr: string): string
  {
    if Strip(raw) != "" then Strip(raw) else addr
  }

  /** The line a handler acts on: `raw.rstrip('\n').rstrip('\r')`. */
  function Chomp(raw: string): string
  {
    RStripChar(RStripChar(raw, '\n'), '\r')
  }

  /** Record a broadcast's sends and the roster it left. */
  function Emit(s: Server, f: Fanout): Server
  {
    s.(roster := f.roster, log := s.log + f.sends)
  }

  /** Append `(conn, name)` and tell everyone else `SERVER: {name} joined`. */
  function Join(s: Server, c: ConnId, name: string, failing: set<ConnId>): (r: Server)
    ensures r.phases == s.phases[c := Active(name)]
    ensures Entry(c, name) in r.roster
    ensures forall x | x in r.roster :: x in s.roster || x == Entry(c, name)
    ensures |s.log| <= |r.log| && r.log[..|s.log|] == s.log
    ensures forall i | |s.log| <= i < |r.log| :: r.log[i].to != c && r.log[i].text == "SERVER: " + name + " joined\n"
  {
    var s1 := s.(roster := s.roster + [Entry(c, name)], phases := s.phases[c := Active(name)]);
    Emit(s1, Broadcast(s1.roster, "SERVER: " + name + " joined", Some(c), failing))
  }

  /** The `finally` block: drop every entry of `c`, then tell everyone left `SERVER: {name} left`. */
  function Cleanup(s: Server, c: ConnId, name: string, failing: set<ConnId>): (r: Server)
    ensures r.phases == s.phases[c := Finished]
    ensures forall x | x in r.roster :: x in s.roster && x.conn != c
    ensures |s.log| <= |r.log| && r.log[..|s.log|] == s.log
    ensures forall i | |s.log| <= i < |r.log| :: r.log[i].to != c && r.log[i].text == "SERVER: " + name + " left\n"
  {
    var r1 := RemoveConns(s.roster, {c});
    RemoveConnsSpec(s.roster, {c});
    BroadcastSkipsAbsent(r1, "SERVER: " + name + " left", None, failing, c);
    Emit(s.(roster := r1, phases := s.phases[c := Finished]), Broadcast(r1, "SERVER: " + name + " left", None, failing))
  }

  /** A handler's phase only moves forward: from awaiting a name to joined or finished, and from joined to finished. */
  predicate Advances(p: Phase, q: Phase)
  {
    p == q || (p.AwaitingName? && !q.AwaitingName?) || (p.Active? && q.Finished?)
  }

  /** One event. Sends to connections in `failing` raise, and are swallowed as the source does. */
  function Step(s: Server, e: Event, failing: set<ConnId>): (r: Server)
    ensures |s.log| <= |r.log| && r.log[..|s.log|] == s.log
    ensures forall d | d != e.conn :: (d in r.phases <==> d in s.phases) && (d in s.phases ==> r.phases[d] == s.phases[d])
    ensures e.conn in r.phases <==> e.conn in s.phases || e.Accept?
    ensures e.conn in s.phases ==> Advances(s.phases[e.conn], r.phases[e.conn])
  {
    match e
    case Accept(c, addr) =>
      if c in s.phases then s else s.(phases := s.phases[c := AwaitingName(addr)])
    case Line(c, raw) =>
      if c !in s.phases then s
      else match s.phases[c] {
        case AwaitingName(addr) =>
          // `if not name: conn.close(); return` still runs the `finally` block, with name == ""
          if raw == "" then Cleanup(s, c, "", failing)
          else Join(s, c, DisplayName(raw, addr), failing)
        case Active(name) =>
          if raw == "" then Cleanup(s, c, name, failing)
          else
            var line := Chomp(raw);
            if IsExitIgnoringCase(line) then
              Cleanup(s.(log := s.log + [Send(c, "DONE\n", c !in failing)]), c, name, failing)
            else
              Emit(s, Broadcast(s.roster, name + ": " + line, Some(c), failing))
        case Finished => s
      }
    case ReadFailed(c) =>
      if c !in s.phases then s
      else match s.phases[c] {
        // `name` is still unbound: the `finally` block removes nothing and raises before broadcasting
        case AwaitingName(_) => s.(roster := RemoveConns(s.roster, {c}), phases := s.phases[c := Finished])
        case Active(name) => Cleanup(s, c, name, failing)
        case Finished => s
      }
  }

  /** A trace of events, each with the connections whose sends fail during it. */
  datatype Tick = Tick(event: Event, failing: set<ConnId>)

  function Run(s: Server, trace: seq<Tick>): Server
    decreases |trace|
  {
    if |trace| == 0 then s else Run(Step(s, trace[0].event, trace[0].failing), trace[1..])
  }

  /** The sends a step added to the log. */
  function NewSends(s: Server, s': Server): seq<Send>
    requires |s.log| <= |s'.log|
  {
    s'.log[|s.log|..]
  }

  // ---------------------------------------------------------------------------
  // Invariants
  // ---------------------------------------------------------------------------

  /**
   * Every roster entry belongs to a handler that has joined under that very
   * name, and no connection has two entries.
   */
  ghost predicate Valid(s: Server)
  {
    && (forall i | 0 <= i < |s.roster| ::
          s.roster[i].conn in s.phases && s.phases[s.roster[i].conn] == Active(s.roster[i].name))
    && (forall c: ConnId :: Entries(s.roster, c) <= 1)
  }

  /** With no failed sends, the roster holds exactly the joined handlers that have not finished. */
  ghost predicate Exact(s: Server)
  {
    forall c: ConnId :: Entries(s.roster, c) == Joined(s.phases, c)
  }

  /** 1 if the handler of `c` has joined and not finished, else 0. */
  function Joined(phases: map<ConnId, Phase>, c: ConnId): nat
  {
    if c in phases && phases[c].Active? then 1 else 0
  }

  lemma {:induction false} BroadcastKeepsValid(s: Server, f: Fanout, r: Roster, text: string, except: Option<ConnId>, failing: set<ConnId>)
    requires Valid(s.(roster := r)) && f == Broadcast(r, text, except, failing)
    ensures Valid(Emit(s, f))
  {
    var s' := Emit(s, f);
    forall i | 0 <= i < |s'.roster|
      ensures s'.roster[i].conn in s'.phases && s'.phases[s'.roster[i].conn] == Active(s'.roster[i].name)
    {
      assert s'.roster[i] in f.roster;
      var k :| 0 <= k < |r| && r[k] == s'.roster[i];
    }
    BroadcastEntries(r, text, except, failing);
  }

  /** A broadcast never adds entries: each connection keeps at most as many as before. */
  lemma BroadcastEntries(r: Roster, text: string, except: Option<ConnId>, failing: set<ConnId>)
    ensures forall c: ConnId :: Entries(Broadcast(r, text, except, failing).roster, c) <= Entries(r, c)
  {
    var ts := Targets(r, except);
    RemoveConnsSpec(r, Failed(ts, failing));
  }

  /** Every step keeps the roster consistent with the handlers' phases. */
  lemma {:induction false} StepKeepsValid(s: Server, e: Event, failing: set<ConnId>)
    requires Valid(s)
    ensures Valid(Step(s, e, failing))
  {
    match e
    case Accept(c, addr) =>
      if c !in s.phases {
        var s' := Step(s, e, failing);
        assert forall i | 0 <= i < |s.roster| :: s.roster[i].conn != c;
      }
    case Line(c, raw) =>
      if c in s.phases {
        match s.phases[c] {
        case AwaitingName(addr) =>
          if raw == "" {
            CleanupKeepsValid(s, c, "", failing);
          } else {
            JoinKeepsValid(s, c, addr, DisplayName(raw, addr), failing);
          }
        case Active(name) =>
          if raw == "" {
            CleanupKeepsValid(s, c, name, failing);
          } else if IsExitIgnoringCase(Chomp(raw)) {
            CleanupKeepsValid(s.(log := s.log + [Send(c, "DONE\n", c !in failing)]), c, name, failing);
          } else {
            BroadcastKeepsValid(s, Broadcast(s.roster, name + ": " + Chomp(raw), Some(c), failing), s.roster, name + ": " + Chomp(raw), Some(c), failing);
          }
        case Finished =>
        }
      }
    case ReadFailed(c) =>
      if c in s.phases {
        match s.phases[c] {
        case AwaitingName(_) =>
          RemoveConnsSpec(s.roster, {c});
          var s' := Step(s, e, failing);
          forall i | 0 <= i < |s'.roster|
            ensures s'.roster[i].conn in s'.phases && s'.phases[s'.roster[i].conn] == Active(s'.roster[i].name)
          {
            assert s'.roster[i] in s.roster;
          }
        case Active(name) => CleanupKeepsValid(s, c, name, failing);
        case Finished =>
        }
      }
  }

  lemma {:induction false} JoinKeepsValid(s: Server, c: ConnId, addr: string, name: string, failing: set<ConnId>)
    requires Valid(s) && c in s.phases && s.phases[c] == AwaitingName(addr)
    ensures Valid(Join(s, c, name, failing))
  {
    var s1 := s.(roster := s.roster + [Entry(c, name)], phases := s.phases[c := Active(name)]);
    assert forall i | 0 <= i < |s.roster| :: s.roster[i].conn != c;
    EntriesZero(s.roster, c);
    forall d: ConnId
      ensures Entries(s1.roster, d) <= 1
    {
      EntriesAppend(s.roster, [Entry(c, name)], d);
      assert [Entry(c, name)][1..] == [];
    }
    assert Valid(s1);
    BroadcastKeepsValid(s1, Broadcast(s1.roster, "SERVER: " + name + " joined", Some(c), failing), s1.roster, "SERVER: " + name + " joined", Some(c), failing);
  }

  lemma {:induction false} CleanupKeepsValid(s: Server, c: ConnId, name: string, failing: set<ConnId>)
    requires Valid(s)
    ensures Valid(Cleanup(s, c, name, failing))
  {
    var s1 := s.(roster := RemoveConns(s.roster, {c}), phases := s.phases[c := Finished]);
    RemoveConnsSpec(s.roster, {c});
    forall i | 0 <= i < |s1.roster|
      ensures s1.roster[i].conn in s1.phases && s1.phases[s1.roster[i].conn] == Active(s1.roster[i].name)
    {
      assert s1.roster[i] in s.roster;
    }
    BroadcastKeepsValid(s1, Broadcast(s1.roster, "SERVER: " + name + " left", None, failing), s1.roster, "SERVER: " + name + " left", None, failing);
  }

  /** Any trace from the initial server keeps every roster entry tied to a joined handler, with no duplicates. */
  lemma {:induction false} RunKeepsValid(s: Server, trace: seq<Tick>)
    requires Valid(s)
    ensures Valid(Run(s, trace))
    decreases |trace|
  {
    if |trace| > 0 {
      StepKeepsValid(s, trace[0].event, trace[0].failing);
      RunKeepsValid(Step(s, trace[0].event, trace[0].failing), trace[1..]);
    }
  }

  lemma StepKeepsExact(s: Server, e: Event)
    requires Valid(s) && Exact(s)
    ensures Exact(Step(s, e, {}))
  {
    match e
    case Accept(c, addr) =>
      AcceptKeepsExact(s, c, addr);
    case Line(c, raw) =>
      if c in s.phases {
        LineKeepsExact(s, c, raw);
      }
    case ReadFailed(c) =>
      if c in s.phases {
        match s.phases[c] {
        case AwaitingName(_) => RemoveConnsSpec(s.roster, {c});
        case Active(name) => CleanupExact(s, c, name);
        case Finished =>
        }
      }
  }

  lemma AcceptKeepsExact(s: Server, c: ConnId, addr: string)
    requires Exact(s)
    ensures Exact(Step(s, Accept(c, addr), {}))
  {
    var s' := Step(s, Accept(c, addr), {});
    assert forall d: ConnId :: Joined(s'.phases, d) == Joined(s.phases, d);
  }

  lemma LineKeepsExact(s: Server, c: ConnId, raw: string)
    requires Valid(s) && Exact(s) && c in s.phases
    ensures Exact(Step(s, Line(c, raw), {}))
  {
    match s.phases[c] {
    case AwaitingName(addr) =>
      if raw == "" {
        CleanupExact(s, c, "");
      } else {
        JoinExact(s, c, addr, raw);
      }
    case Active(name) =>
      if raw == "" {
        CleanupExact(s, c, name);
      } else if IsExitIgnoringCase(Chomp(raw)) {
        CleanupExact(s.(log := s.log + [Send(c, "DONE\n", true)]), c, name);
      } else {
        var s' := Step(s, Line(c, raw), {});
        assert s'.roster == s.roster;
      }
    case Finished =>
    }
  }

  lemma JoinExact(s: Server, c: ConnId, addr: string, raw: string)
    requires Valid(s) && Exact(s) && c in s.phases && s.phases[c] == AwaitingName(addr) && raw != ""
    ensures Exact(Step(s, Line(c, raw), {}))
  {
    var name := DisplayName(raw, addr);
    JoinStep(s, c, addr, raw, {});
    JoinSpec(s, c, name, {});
    var s' := Join(s, c, name, {});
    forall d: ConnId
      ensures Entries(s'.roster, d) == Joined(s'.phases, d)
    {
      EntriesAppend(s.roster, [Entry(c, name)], d);
      assert [Entry(c, name)][1..] == [];
    }
  }

  lemma CleanupExact(s: Server, c: ConnId, name: string)
    requires Exact(s)
    ensures Exact(Cleanup(s, c, name, {}))
  {
    RemoveConnsSpec(s.roster, {c});
  }

  /**
   * If no send ever fails, the roster after any trace holds exactly one entry
   * per connection that has joined and not finished, and nothing else.
   */
  lemma {:induction false} RunKeepsExact(s: Server, trace: seq<Tick>)
    requires Valid(s) && Exact(s)
    requires forall i | 0 <= i < |trace| :: trace[i].failing == {}
    ensures Exact(Run(s, trace))
    decreases |trace|
  {
    if |trace| > 0 {
      StepKeepsExact(s, trace[0].event);
      StepKeepsValid(s, trace[0].event, {});
      RunKeepsExact(Step(s, trace[0].event, {}), trace[1..]);
    }
  }

  // ---------------------------------------------------------------------------
  // One handler step at a time
  // ---------------------------------------------------------------------------

  /** Everything `s'` sent after `s`, when `s'` only appended to the log. */
  lemma SendsAfter(s: Server, sends: seq<Send>)
    ensures (s.log + sends)[|s.log|..] == sends
  {
  }

  /**
   * Joining adds exactly one entry `(conn, name)` and sends `SERVER: {name} joined`
   * once to every other roster member, never to the joiner.
   */
  lemma JoinSpec(s: Server, c: ConnId, name: string, failing: set<ConnId>)
    requires Entries(s.roster, c) == 0
    ensures var s' := Join(s, c, name, failing);
      && s'.phases == s.phases[c := Active(name)]
      && Entries(s'.roster, c) == 1 && Entry(c, name) in s'.roster
      && (failing == {} ==> s'.roster == s.roster + [Entry(c, name)])
      && |s.log| <= |s'.log|
      && (forall i | |s.log| <= i < |s'.log| :: s'.log[i].to != c && s'.log[i].text == "SERVER: " + name + " joined\n")
      && (forall d: ConnId | d != c :: CountTo(s'.log[|s.log|..], d) == Entries(s.roster, d))
  {
    var r1 := s.roster + [Entry(c, name)];
    var f := Broadcast(r1, "SERVER: " + name + " joined", Some(c), failing);
    SendsAfter(s, f.sends);
    forall d: ConnId
      ensures Entries(r1, d) == Entries(s.roster, d) + (if d == c then 1 else 0)
    {
      EntriesAppend(s.roster, [Entry(c, name)], d);
      assert [Entry(c, name)][1..] == [];
    }
    RemoveConnsSpec(r1, Failed(Targets(r1, Some(c)), failing));
    assert Entry(c, name) in r1;
  }

  /** The display name is the stripped first line, or the address when that line is blank. */
  lemma DisplayNameSpec(raw: string, addr: string)
    ensures (forall k | 0 <= k < |raw| :: IsSpace(raw[k])) ==> DisplayName(raw, addr) == addr
    ensures (exists k | 0 <= k < |raw| :: !IsSpace(raw[k])) ==> DisplayName(raw, addr) == Strip(raw) && Strip(raw) != ""
  {
    StripEmpty(raw);
  }

  /** A non-empty first line makes the handler join under its display name. */
  lemma JoinStep(s: Server, c: ConnId, addr: string, raw: string, failing: set<ConnId>)
    requires Valid(s) && c in s.phases && s.phases[c] == AwaitingName(addr) && raw != ""
    ensures Step(s, Line(c, raw), failing) == Join(s, c, DisplayName(raw, addr), failing)
    ensures Entries(s.roster, c) == 0
  {
    assert forall i | 0 <= i < |s.roster| :: s.roster[i].conn != c;
    EntriesZero(s.roster, c);
  }

  /** End of stream before any name: the connection never joins, yet the leave notice `SERVER:  left` goes to every roster member. */
  lemma EofBeforeName(s: Server, c: ConnId, addr: string, failing: set<ConnId>)
    requires Valid(s) && c in s.phases && s.phases[c] == AwaitingName(addr)
    ensures var s' := Step(s, Line(c, ""), failing);
      && s'.phases == s.phases[c := Finished]
      && Entries(s'.roster, c) == 0
      && (failing == {} ==> s'.roster == s.roster)
      && |s.log| <= |s'.log|
      && (forall i | |s.log| <= i < |s'.log| :: s'.log[i].text == "SERVER:  left\n")
      && (forall d: ConnId :: CountTo(s'.log[|s.log|..], d) == Entries(s.roster, d))
  {
    assert forall i | 0 <= i < |s.roster| :: s.roster[i].conn != c;
    EntriesZero(s.roster, c);
    CleanupSpec(s, c, "", failing);
    var s' := Cleanup(s, c, "", failing);
    assert "SERVER: " + "" + " left" + "\n" == "SERVER:  left\n";
    CountToZero(s'.log[|s.log|..], c);
    if failing == {} {
      CleanupKeepsAbsentRoster(s, c, "");
    }
  }

  /** Cleanup of a connection without entries, with no failed send, leaves the roster as it was. */
  lemma CleanupKeepsAbsentRoster(s: Server, c: ConnId, name: string)
    requires forall i | 0 <= i < |s.roster| :: s.roster[i].conn != c
    ensures Cleanup(s, c, name, {}).roster == s.roster
  {
    RemoveConnsSpec(s.roster, {c});
  }

  lemma {:induction false} CountToZero(sends: seq<Send>, c: ConnId)
    requires forall i | 0 <= i < |sends| :: sends[i].to != c
    ensures CountTo(sends, c) == 0
  {
    if |sends| > 0 {
      CountToZero(sends[1..], c);
    }
  }

  /** A failed read before any name ends the handler with no broadcast at all and the roster untouched. */
  lemma ReadFailedBeforeName(s: Server, c: ConnId, addr: string, failing: set<ConnId>)
    requires Valid(s) && c in s.phases && s.phases[c] == AwaitingName(addr)
    ensures var s' := Step(s, ReadFailed(c), failing);
      s' == s.(phases := s.phases[c := Finished])
  {
    assert forall i | 0 <= i < |s.roster| :: s.roster[i].conn != c;
    RemoveConnsSpec(s.roster, {c});
  }

  /**
   * Cleanup removes every entry of the leaver, then sends `SERVER: {name} left`
   * once to each remaining roster member; the leaver never receives its own notice.
   */
  lemma CleanupSpec(s: Server, c: ConnId, name: string, failing: set<ConnId>)
    ensures var s' := Cleanup(s, c, name, failing);
      && s'.phases == s.phases[c := Finished]
      && Entries(s'.roster, c) == 0
      && |s.log| <= |s'.log|
      && (forall i | |s.log| <= i < |s'.log| :: s'.log[i].to != c && s'.log[i].text == "SERVER: " + name + " left\n")
      && (forall d: ConnId | d != c :: CountTo(s'.log[|s.log|..], d) == Entries(s.roster, d))
  {
    RemoveConnsSpec(s.roster, {c});
    var r1 := RemoveConns(s.roster, {c});
    var f := Broadcast(r1, "SERVER: " + name + " left", None, failing);
    SendsAfter(s, f.sends);
    BroadcastSkipsAbsent(r1, "SERVER: " + name + " left", None, failing, c);
    RemoveConnsSpec(r1, Failed(Targets(r1, None), failing));
  }

  /** A connection without a roster entry is sent nothing. */
  lemma BroadcastSkipsAbsent(r: Roster, text: string, except: Option<ConnId>, failing: set<ConnId>, c: ConnId)
    requires Entries(r, c) == 0
    ensures forall i | 0 <= i < |Broadcast(r, text, except, failing).sends| :: Broadcast(r, text, except, failing).sends[i].to != c
  {
    var sends := Broadcast(r, text, except, failing).sends;
    forall i | 0 <= i < |sends|
      ensures sends[i].to != c
    {
      CountToMember(sends, i);
    }
  }

  lemma {:induction false} CountToMember(sends: seq<Send>, i: nat)
    requires i < |sends|
    ensures CountTo(sends, sends[i].to) > 0
  {
    if i > 0 {
      CountToMember(sends[1..], i - 1);
    }
  }

  /** A second cleanup of the same connection leaves the roster as the first one did. */
  lemma CleanupTwice(s: Server, c: ConnId, name: string)
    ensures Cleanup(Cleanup(s, c, name, {}), c, name, {}).roster == Cleanup(s, c, name, {}).roster
  {
    RemoveConnsIdempotent(s.roster, {c});
  }

  /**
   * A line equal to `EXIT` in any letter case, after trailing `\n` and `\r` are
   * dropped, sends `DONE` to the sender alone and then runs cleanup; the line is
   * never broadcast.
   */
  lemma ExitStep(s: Server, c: ConnId, name: string, raw: string, failing: set<ConnId>)
    requires c in s.phases && s.phases[c] == Active(name) && raw != "" && IsExitIgnoringCase(Chomp(raw))
    ensures var s' := Step(s, Line(c, raw), failing);
      && s'.phases == s.phases[c := Finished]
      && Entries(s'.roster, c) == 0
      && |s.log| < |s'.log|
      && s'.log[|s.log|].to == c && s'.log[|s.log|].text == "DONE\n"
      && (s'.log[|s.log|].delivered <==> c !in failing)
      && (forall i | |s.log| < i < |s'.log| :: s'.log[i].to != c && s'.log[i].text == "SERVER: " + name + " left\n")
      && (forall d: ConnId | d != c :: CountTo(s'.log[|s.log| + 1..], d) == Entries(s.roster, d))
  {
    var s1 := s.(log := s.log + [Send(c, "DONE\n", c !in failing)]);
    CleanupSpec(s1, c, name, failing);
  }

  /** `Exit`, `exit` and `EXIT` with a CRLF ending all end the session. */
  lemma ExitSpellingsEndSession()
    ensures IsExitIgnoringCase(Chomp("exit\r\n"))
    ensures IsExitIgnoringCase(Chomp("Exit\n"))
    ensures !IsExitIgnoringCase(Chomp(" EXIT\n"))
  {
    assert RStripChar("exit\r\n", '\n') == "exit\r" by {
      assert "exit\r\n"[..5] == "exit\r";
    }
    assert RStripChar("exit\r", '\r') == "exit" by {
      assert "exit\r"[..4] == "exit";
    }
    assert RStripChar("Exit\n", '\n') == "Exit" by {
      assert "Exit\n"[..4] == "Exit";
    }
    assert RStripChar(" EXIT\n", '\n') == " EXIT" by {
      assert " EXIT\n"[..5] == " EXIT";
    }
  }

  /**
   * Any other line is broadcast as `{name}: {line}` to every roster entry but
   * the sender's, once each; the sender's own phase and entry are untouched.
   */
  lemma MessageStep(s: Server, c: ConnId, name: string, raw: string, failing: set<ConnId>)
    requires c in s.phases && s.phases[c] == Active(name) && raw != "" && !IsExitIgnoringCase(Chomp(raw))
    ensures var s' := Step(s, Line(c, raw), failing);
      && s'.phases == s.phases
      && Entries(s'.roster, c) == Entries(s.roster, c)
      && |s.log| <= |s'.log|
      && (forall i | |s.log| <= i < |s'.log| :: s'.log[i].to != c && s'.log[i].text == name + ": " + Chomp(raw) + "\n")
      && (forall d: ConnId | d != c :: CountTo(s'.log[|s.log|..], d) == Entries(s.roster, d))
  {
    var f := Broadcast(s.roster, name + ": " + Chomp(raw), Some(c), failing);
    SendsAfter(s, f.sends);
    RemoveConnsSpec(s.roster, Failed(Targets(s.roster, Some(c)), failing));
  }

  /** Once a handler has finished, nothing more happens on its connection. */
  lemma FinishedIsFinal(s: Server, e: Event, failing: set<ConnId>)
    requires e.conn in s.phases && s.phases[e.conn] == Finished
    ensures Step(s, e, failing) == s
  {
  }
}
