/**
 * The bridge and two turn clients run together. Each client's socket is a pair of line queues:
 * the lines it has sent that the bridge has not read yet, and the lines the bridge has sent that
 * it has not read yet. Every `sendall` travels as its own segment and each read takes one line
 * (the framing's loss of pipelined lines is modelled in `Framing` and `Bridge.Serve`). A move is
 * one step of one program; a program can move only when the source it is blocked on has something
 * for it, or has been closed.
 */
module TurnSystem {
  import opened Common
  import opened Text
  import Bridge
  import TurnClient

  /** One client process: its mode, the console lines still to be typed, and its two queues. */
  datatype Client = Client(mode: TurnClient.Mode, console: seq<string>, inbox: seq<string>, outbox: seq<string>)

  /** The whole system. `a` is the client the bridge accepts first. */
  datatype Sys = Sys(bridge: Bridge.Mode, a: Client, b: Client)

  datatype Actor = TheBridge | TheClient(peer: Bridge.Peer)

  function Get(s: Sys, p: Bridge.Peer): Client
  {
    if p == Bridge.A then s.a else s.b
  }

  function Put(s: Sys, p: Bridge.Peer, c: Client): Sys
  {
    if p == Bridge.A then s.(a := c) else s.(b := c)
  }

  /** Both clients at their name prompt, the bridge about to accept the first. */
  function Init(consoleA: seq<string>, consoleB: seq<string>): Sys
  {
    Sys(Bridge.AwaitNameA, Client(TurnClient.Start, consoleA, [], []), Client(TurnClient.Start, consoleB, [], []))
  }

  /** Whether `who` can take a step: what it is blocked on holds a line or has reached end of stream. */
  predicate Enabled(s: Sys, who: Actor)
  {
    match who
    case TheBridge =>
      && !s.bridge.Closed?
      && var c := Get(s, Bridge.Reading(s.bridge));
         c.outbox != [] || c.mode.Ended?
    case TheClient(p) =>
      var c := Get(s, p);
      && !TurnClient.Finished(c.mode)
      && (TurnClient.Awaits(c.mode) == TurnClient.Console || c.inbox != [] || s.bridge.Closed?)
  }

  /** Queue the bridge's messages on the addressed clients' sockets. */
  function Deliver(s: Sys, outs: seq<Bridge.Out>): Sys
    decreases |outs|
  {
    if |outs| == 0 then s
    else
      var c := Get(s, outs[0].to);
      Deliver(Put(s, outs[0].to, c.(inbox := c.inbox + [Bridge.TextOf(outs[0])])), outs[1..])
  }

  /** One step of `who`. Both programs strip the lines they read. */
  function Move(s: Sys, who: Actor): Sys
    requires Enabled(s, who)
  {
    match who
    case TheBridge =>
      var p := Bridge.Reading(s.bridge);
      var c := Get(s, p);
      var line := if c.outbox != [] then Some(Strip(c.outbox[0])) else None;
      var r := Bridge.Step(s.bridge, line);
      var t := Put(s, p, c.(outbox := if c.outbox != [] then c.outbox[1..] else []));
      Deliver(t.(bridge := r.mode), r.outs)
    case TheClient(p) =>
      var c := Get(s, p);
      if TurnClient.Awaits(c.mode) == TurnClient.Console then
        var input := if c.console != [] then Some(c.console[0]) else None;
        var r := TurnClient.Step(c.mode, input);
        Put(s, p, c.(mode := r.mode, console := if c.console != [] then c.console[1..] else [], outbox := c.outbox + r.sent))
      else
        var input := if c.inbox != [] then Some(Strip(c.inbox[0])) else None;
        var r := TurnClient.Step(c.mode, input);
        Put(s, p, c.(mode := r.mode, inbox := if c.inbox != [] then c.inbox[1..] else [], outbox := c.outbox + r.sent))
  }

  /** One move of `who`, or `None` when it cannot move. */
  function TryMove(s: Sys, who: Actor): Option<Sys>
  {
    if Enabled(s, who) then Some(Move(s, who)) else None
  }

  /** The state after a schedule of steps, or `None` if some step in it could not be taken. */
  function RunWith<S, A>(step: (S, A) -> Option<S>, s: S, schedule: seq<A>): Option<S>
    decreases |schedule|
  {
    if |schedule| == 0 then Some(s)
    else match step(s, schedule[0])
      case None => None
      case Some(t) => RunWith(step, t, schedule[1..])
  }

  /** The state after a schedule of moves, or `None` if some move in it was not enabled. */
  function Run(s: Sys, schedule: seq<Actor>): Option<Sys>
  {
    RunWith(TryMove, s, schedule)
  }

  /** Every program has stopped. */
  predicate AllFinished(s: Sys)
  {
    s.bridge.Closed? && TurnClient.Finished(s.a.mode) && TurnClient.Finished(s.b.mode)
  }

  /** Nobody can move, yet not everybody has finished: each remaining program waits for another. */
  ghost predicate Deadlocked(s: Sys)
  {
    !AllFinished(s) && forall who: Actor :: !Enabled(s, who)
  }

  // ---------------------------------------------------------------------------
  // Facts about the texts exchanged
  // ---------------------------------------------------------------------------

  /** A's role line has no spaces at its ends and starts with `ROLE:A`. */
  lemma RoleLineAReads()
    ensures Strip(Bridge.RoleLineA) == Bridge.RoleLineA && StartsWith(Bridge.RoleLineA, "ROLE:A")
  {
    RoleLineRead("ROLE:A", " You start. Send one line and press Enter.");
  }

  /** B's role line has no spaces at its ends and does not start with `ROLE:A`. */
  lemma RoleLineBReads()
    ensures Strip(Bridge.RoleLineB) == Bridge.RoleLineB && !StartsWith(Bridge.RoleLineB, "ROLE:A")
  {
    RoleLineRead("ROLE:B", " Wait for peer; you will send after you receive a line.");
    NotRoleA(Bridge.RoleLineB);
  }

  lemma RoleLineRead(tag: string, text: string)
    requires |tag| == 6 && tag[0] == 'R' && |text| > 0 && text[|text| - 1] == '.'
    ensures Strip(tag + text) == tag + text && StartsWith(tag + text, tag) && (tag + text)[5] == tag[5]
  {
    var s := tag + text;
    assert s[0] == 'R' && s[|s| - 1] == '.';
    StripKeeps(s);
    assert s[..6] == tag;
  }

  /** A line whose sixth character is not `A` does not start with `ROLE:A`. */
  lemma NotRoleA(line: string)
    requires |line| >= 6 && line[5] != 'A'
    ensures !StartsWith(line, "ROLE:A")
  {
    var roleA: string := "ROLE:A";
    assert roleA[5] == 'A';
    assert line[..6][5] == line[5];
  }

  /** A forwarded line starts with `From `, so even stripped it is never `DONE`. */
  lemma ForwardIsNotDone(sender: string, line: string)
    ensures Strip("From " + sender + ": " + line) != "DONE"
  {
    var x := "From " + sender + ": " + line;
    assert x[0] == 'F';
    assert TrimLeft(x) == x;
    TrimRightSpec(x);
    var r := Strip(x);
    if |r| > 0 {
      assert r[0] == x[0];
    }
  }

  // ---------------------------------------------------------------------------
  // Single moves
  // ---------------------------------------------------------------------------

  lemma RunCons<S, A>(step: (S, A) -> Option<S>, s: S, who: A, rest: seq<A>)
    requires step(s, who).Some?
    ensures RunWith(step, s, [who] + rest) == RunWith(step, step(s, who).value, rest)
  {
    assert ([who] + rest)[1..] == rest;
  }

  lemma RunTwo<S, A>(step: (S, A) -> Option<S>, s: S, w0: A, w1: A, t1: S, t2: S)
    requires step(s, w0) == Some(t1) && step(t1, w1) == Some(t2)
    ensures RunWith(step, s, [w0, w1]) == Some(t2)
  {
    RunCons(step, t1, w1, []);
    assert [w1] + [] == [w1];
    RunCons(step, s, w0, [w1]);
    assert [w0] + [w1] == [w0, w1];
  }

  lemma RunThree<S, A>(step: (S, A) -> Option<S>, s: S, w0: A, w1: A, w2: A, t1: S, t2: S, t3: S)
    requires step(s, w0) == Some(t1) && step(t1, w1) == Some(t2) && step(t2, w2) == Some(t3)
    ensures RunWith(step, s, [w0, w1, w2]) == Some(t3)
  {
    RunTwo(step, t1, w1, w2, t2, t3);
    RunCons(step, s, w0, [w1, w2]);
    assert [w0] + [w1, w2] == [w0, w1, w2];
  }

  lemma RunFour<S, A>(step: (S, A) -> Option<S>, s: S, w0: A, w1: A, w2: A, w3: A, t1: S, t2: S, t3: S, t4: S)
    requires step(s, w0) == Some(t1) && step(t1, w1) == Some(t2) && step(t2, w2) == Some(t3) && step(t3, w3) == Some(t4)
    ensures RunWith(step, s, [w0, w1, w2, w3]) == Some(t4)
  {
    RunThree(step, t1, w1, w2, w3, t2, t3, t4);
    RunCons(step, s, w0, [w1, w2, w3]);
    assert [w0] + [w1, w2, w3] == [w0, w1, w2, w3];
  }

  /** Running two schedules one after the other is running their concatenation. */
  lemma {:induction false} RunAppend<S, A>(step: (S, A) -> Option<S>, s: S, x: seq<A>, y: seq<A>)
    requires RunWith(step, s, x).Some?
    ensures RunWith(step, s, x + y) == RunWith(step, RunWith(step, s, x).value, y)
    decreases |x|
  {
    if |x| > 0 {
      assert (x + y)[1..] == x[1..] + y;
      RunAppend(step, step(s, x[0]).value, x[1..], y);
    } else {
      assert x + y == y;
    }
  }

  /** A client at the name prompt sends the name it read and waits for its role. */
  lemma ClientSendsName(s: Sys, p: Bridge.Peer, typed: string, rest: seq<string>)
    requires Get(s, p).mode == TurnClient.Start && Get(s, p).console == [typed] + rest
    ensures Enabled(s, TheClient(p))
    ensures var c := Get(s, p);
      Move(s, TheClient(p)) == Put(s, p, c.(mode := TurnClient.AwaitRole, console := rest, outbox := c.outbox + [NameFrom(typed)]))
  {
    assert ([typed] + rest)[1..] == rest;
  }

  /** A client on turn sends a typed line that is neither empty nor `EXIT` and waits for a reply. */
  lemma ClientSendsLine(s: Sys, p: Bridge.Peer, line: string, rest: seq<string>)
    requires Get(s, p).mode == TurnClient.InTurn && Get(s, p).console == [line] + rest
    requires line != "" && line != "EXIT"
    ensures Enabled(s, TheClient(p))
    ensures var c := Get(s, p);
      Move(s, TheClient(p)) == Put(s, p, c.(mode := TurnClient.AwaitReply, console := rest, outbox := c.outbox + [line]))
  {
    assert ([line] + rest)[1..] == rest;
  }

  /** A client blocked on the server takes the first queued line, stripped. */
  lemma ClientReads(s: Sys, p: Bridge.Peer, line: string, rest: seq<string>)
    requires !TurnClient.Finished(Get(s, p).mode) && TurnClient.Awaits(Get(s, p).mode) == TurnClient.Server
    requires Get(s, p).inbox == [line] + rest
    ensures Enabled(s, TheClient(p))
    ensures var c := Get(s, p);
      Move(s, TheClient(p)) == Put(s, p, c.(mode := TurnClient.Step(c.mode, Some(Strip(line))).mode, inbox := rest))
  {
    assert ([line] + rest)[1..] == rest;
    var c := Get(s, p);
    assert TurnClient.Step(c.mode, Some(Strip(line))).sent == [];
    assert c.outbox + [] == c.outbox;
  }

  /** `ClientReads` with the mode the read line leads to given. */
  lemma ClientReadsTo(s: Sys, p: Bridge.Peer, line: string, rest: seq<string>, next: TurnClient.Mode)
    requires !TurnClient.Finished(Get(s, p).mode) && TurnClient.Awaits(Get(s, p).mode) == TurnClient.Server
    requires Get(s, p).inbox == [line] + rest
    requires TurnClient.Step(Get(s, p).mode, Some(Strip(line))).mode == next
    ensures Enabled(s, TheClient(p))
    ensures Move(s, TheClient(p)) == Put(s, p, Get(s, p).(mode := next, inbox := rest))
  {
    ClientReads(s, p, line, rest);
  }

  /** The bridge reads A's name. */
  lemma BridgeReadsNameA(s: Sys, name: string, rest: seq<string>)
    requires s.bridge == Bridge.AwaitNameA && s.a.outbox == [name] + rest
    ensures Enabled(s, TheBridge)
    ensures Move(s, TheBridge) == s.(bridge := Bridge.AwaitNameB(Strip(name)), a := s.a.(outbox := rest))
  {
    assert ([name] + rest)[1..] == rest;
  }

  lemma DeliverTwo(s: Sys, o1: Bridge.Out, o2: Bridge.Out)
    requires o1.to == Bridge.A && o2.to == Bridge.B && s.a.inbox == [] && s.b.inbox == []
    ensures Deliver(s, [o1, o2]) == s.(a := s.a.(inbox := [Bridge.TextOf(o1)]), b := s.b.(inbox := [Bridge.TextOf(o2)]))
  {
    assert [o1, o2][1..] == [o2];
    var t := Put(s, o1.to, s.a.(inbox := s.a.inbox + [Bridge.TextOf(o1)]));
    DeliverOne(t, o2);
    assert s.a.inbox + [Bridge.TextOf(o1)] == [Bridge.TextOf(o1)];
    assert s.b.inbox + [Bridge.TextOf(o2)] == [Bridge.TextOf(o2)];
  }

  lemma DeliverOne(s: Sys, o: Bridge.Out)
    ensures Deliver(s, [o]) == Put(s, o.to, Get(s, o.to).(inbox := Get(s, o.to).inbox + [Bridge.TextOf(o)]))
  {
  }

  // ---------------------------------------------------------------------------
  // The deadlock
  // ---------------------------------------------------------------------------

  /** Both names typed and sent, then both read by the bridge. */
  const Naming: seq<Actor> := [TheClient(Bridge.A), TheClient(Bridge.B), TheBridge, TheBridge]

  /** Both role lines read. */
  const RoleReading: seq<Actor> := [TheClient(Bridge.A), TheClient(Bridge.B)]

  const Handshake: seq<Actor> := Naming + RoleReading

  /** A types, the bridge relays to B, B reads it and gets the turn. */
  const TurnOfA: seq<Actor> := [TheClient(Bridge.A), TheBridge, TheClient(Bridge.B)]

  /** B types, the bridge relays to A, A reads the reply. */
  const TurnOfB: seq<Actor> := [TheClient(Bridge.B), TheBridge, TheClient(Bridge.A)]

  const FirstRound: seq<Actor> := TurnOfA + TurnOfB

  /** Both clients send their names. */
  lemma NamesSent(nameA: string, nameB: string, restA: seq<string>, restB: seq<string>)
    ensures var s0 := Init([nameA] + restA, [nameB] + restB);
      var s1 := Sys(Bridge.AwaitNameA, Client(TurnClient.AwaitRole, restA, [], [NameFrom(nameA)]), s0.b);
      var s2 := s1.(b := Client(TurnClient.AwaitRole, restB, [], [NameFrom(nameB)]));
      && Enabled(s0, TheClient(Bridge.A)) && Move(s0, TheClient(Bridge.A)) == s1
      && Enabled(s1, TheClient(Bridge.B)) && Move(s1, TheClient(Bridge.B)) == s2
  {
    var s0 := Init([nameA] + restA, [nameB] + restB);
    ClientSendsName(s0, Bridge.A, nameA, restA);
    var s1 := Sys(Bridge.AwaitNameA, Client(TurnClient.AwaitRole, restA, [], [NameFrom(nameA)]), s0.b);
    ClientSendsName(s1, Bridge.B, nameB, restB);
  }

  lemma NameARead(na: string, b: Client, restA: seq<string>)
    ensures var s2 := Sys(Bridge.AwaitNameA, Client(TurnClient.AwaitRole, restA, [], [na]), b);
      Enabled(s2, TheBridge) && Move(s2, TheBridge) == Sys(Bridge.AwaitNameB(Strip(na)), Client(TurnClient.AwaitRole, restA, [], []), b)
  {
    var s2 := Sys(Bridge.AwaitNameA, Client(TurnClient.AwaitRole, restA, [], [na]), b);
    BridgeReadsNameA(s2, na, []);
  }

  /** The bridge reads B's name and queues both role lines. */
  lemma NameBRead(na: string, nb: string, restA: seq<string>, restB: seq<string>)
    ensures var s3 := Sys(Bridge.AwaitNameB(na), Client(TurnClient.AwaitRole, restA, [], []), Client(TurnClient.AwaitRole, restB, [], [nb]));
      && Enabled(s3, TheBridge)
      && Move(s3, TheBridge) == Sys(Bridge.Relay(Bridge.A, na, Strip(nb)),
                                    Client(TurnClient.AwaitRole, restA, [Bridge.RoleLineA], []),
                                    Client(TurnClient.AwaitRole, restB, [Bridge.RoleLineB], []))
  {
    var s3 := Sys(Bridge.AwaitNameB(na), Client(TurnClient.AwaitRole, restA, [], []), Client(TurnClient.AwaitRole, restB, [], [nb]));
    var o1 := Bridge.Out(Bridge.A, Bridge.Role);
    var o2 := Bridge.Out(Bridge.B, Bridge.Role);
    assert Bridge.Step(s3.bridge, Some(Strip(nb))) == Bridge.Result(Bridge.Relay(Bridge.A, na, Strip(nb)), [o1, o2]);
    var t := Sys(Bridge.Relay(Bridge.A, na, Strip(nb)), Client(TurnClient.AwaitRole, restA, [], []), Client(TurnClient.AwaitRole, restB, [], []));
    assert [nb][1..] == [];
    assert Move(s3, TheBridge) == Deliver(t, [o1, o2]);
    DeliverTwo(t, o1, o2);
  }

  /** After the names, the bridge relays from A and each client has its role line queued. */
  lemma NamingRun(nameA: string, nameB: string, restA: seq<string>, restB: seq<string>)
    ensures Run(Init([nameA] + restA, [nameB] + restB), Naming) ==
      Some(Sys(Bridge.Relay(Bridge.A, NameFrom(nameA), NameFrom(nameB)),
               Client(TurnClient.AwaitRole, restA, [Bridge.RoleLineA], []),
               Client(TurnClient.AwaitRole, restB, [Bridge.RoleLineB], [])))
  {
    var na := NameFrom(nameA);
    var nb := NameFrom(nameB);
    NameFromSpec(nameA);
    NameFromSpec(nameB);
    NamesSent(nameA, nameB, restA, restB);
    NameARead(na, Client(TurnClient.AwaitRole, restB, [], [nb]), restA);
    NameBRead(na, nb, restA, restB);
    var s0 := Init([nameA] + restA, [nameB] + restB);
    var s1 := Sys(Bridge.AwaitNameA, Client(TurnClient.AwaitRole, restA, [], [na]), s0.b);
    var s2 := s1.(b := Client(TurnClient.AwaitRole, restB, [], [nb]));
    var s3 := Sys(Bridge.AwaitNameB(na), Client(TurnClient.AwaitRole, restA, [], []), s2.b);
    var s4 := Sys(Bridge.Relay(Bridge.A, na, nb),
                  Client(TurnClient.AwaitRole, restA, [Bridge.RoleLineA], []),
                  Client(TurnClient.AwaitRole, restB, [Bridge.RoleLineB], []));
    RunFour(TryMove, s0, TheClient(Bridge.A), TheClient(Bridge.B), TheBridge, TheBridge, s1, s2, s3, s4);
  }

  /** A reads its role line and takes the turn. */
  lemma RoleReadByA(m: Bridge.Mode, console: seq<string>, b: Client)
    ensures var s := Sys(m, Client(TurnClient.AwaitRole, console, [Bridge.RoleLineA], []), b);
      && Enabled(s, TheClient(Bridge.A))
      && Move(s, TheClient(Bridge.A)) == Sys(m, Client(TurnClient.InTurn, console, [], []), b)
  {
    var s := Sys(m, Client(TurnClient.AwaitRole, console, [Bridge.RoleLineA], []), b);
    RoleLineAReads();
    assert [Bridge.RoleLineA] == [Bridge.RoleLineA] + [];
    ClientReads(s, Bridge.A, Bridge.RoleLineA, []);
  }

  /** B reads its role line and waits for A's line. */
  lemma RoleReadByB(m: Bridge.Mode, a: Client, console: seq<string>)
    ensures var s := Sys(m, a, Client(TurnClient.AwaitRole, console, [Bridge.RoleLineB], []));
      && Enabled(s, TheClient(Bridge.B))
      && Move(s, TheClient(Bridge.B)) == Sys(m, a, Client(TurnClient.Waiting, console, [], []))
  {
    var s := Sys(m, a, Client(TurnClient.AwaitRole, console, [Bridge.RoleLineB], []));
    RoleLineBReads();
    assert [Bridge.RoleLineB] == [Bridge.RoleLineB] + [];
    ClientReads(s, Bridge.B, Bridge.RoleLineB, []);
  }

  /** The role lines give A the turn and leave B waiting. */
  lemma RoleReadingRun(na: string, nb: string, restA: seq<string>, restB: seq<string>)
    ensures Run(Sys(Bridge.Relay(Bridge.A, na, nb),
                    Client(TurnClient.AwaitRole, restA, [Bridge.RoleLineA], []),
                    Client(TurnClient.AwaitRole, restB, [Bridge.RoleLineB], [])), RoleReading) ==
      Some(Sys(Bridge.Relay(Bridge.A, na, nb),
               Client(TurnClient.InTurn, restA, [], []),
               Client(TurnClient.Waiting, restB, [], [])))
  {
    var s4 := Sys(Bridge.Relay(Bridge.A, na, nb),
                  Client(TurnClient.AwaitRole, restA, [Bridge.RoleLineA], []),
                  Client(TurnClient.AwaitRole, restB, [Bridge.RoleLineB], []));
    var s5 := s4.(a := Client(TurnClient.InTurn, restA, [], []));
    RoleReadByA(s4.bridge, restA, s4.b);
    var s6 := s5.(b := Client(TurnClient.Waiting, restB, [], []));
    RoleReadByB(s5.bridge, s5.a, restB);
    RunTwo(TryMove, s4, TheClient(Bridge.A), TheClient(Bridge.B), s5, s6);
  }

  /** After the handshake A has the turn, B waits for A's line, and the bridge reads from A. */
  lemma HandshakeRun(nameA: string, nameB: string, restA: seq<string>, restB: seq<string>)
    ensures Run(Init([nameA] + restA, [nameB] + restB), Handshake) ==
      Some(Sys(Bridge.Relay(Bridge.A, NameFrom(nameA), NameFrom(nameB)),
               Client(TurnClient.InTurn, restA, [], []),
               Client(TurnClient.Waiting, restB, [], [])))
  {
    NamingRun(nameA, nameB, restA, restB);
    RoleReadingRun(NameFrom(nameA), NameFrom(nameB), restA, restB);
    RunAppend(TryMove, Init([nameA] + restA, [nameB] + restB), Naming, RoleReading);
  }

  /** The client on turn sends its line. */
  lemma SendsOnTurn(m: Bridge.Mode, p: Bridge.Peer, line: string, rest: seq<string>, other: Client)
    requires line != "" && line != "EXIT"
    ensures var c := Client(TurnClient.InTurn, [line] + rest, [], []);
      var s := if p == Bridge.A then Sys(m, c, other) else Sys(m, other, c);
      && Enabled(s, TheClient(p))
      && Move(s, TheClient(p)) == Put(s, p, Client(TurnClient.AwaitReply, rest, [], [line]))
  {
    var c := Client(TurnClient.InTurn, [line] + rest, [], []);
    var s := if p == Bridge.A then Sys(m, c, other) else Sys(m, other, c);
    ClientSendsLine(s, p, line, rest);
  }

  /** The bridge takes A's line and queues it for B, whose inbox was empty. */
  lemma RelaysFromA(na: string, nb: string, line: string, a: Client, b: Client)
    requires a.outbox == [line] && b.inbox == [] && Strip(line) != "EXIT"
    ensures var s := Sys(Bridge.Relay(Bridge.A, na, nb), a, b);
      && Enabled(s, TheBridge)
      && Move(s, TheBridge) == Sys(Bridge.Relay(Bridge.B, na, nb), a.(outbox := []), b.(inbox := ["From " + na + ": " + Strip(line)]))
  {
    var s := Sys(Bridge.Relay(Bridge.A, na, nb), a, b);
    var o := Bridge.Out(Bridge.B, Bridge.Forwarded(na, Strip(line)));
    assert Bridge.Step(s.bridge, Some(Strip(line))) == Bridge.Result(Bridge.Relay(Bridge.B, na, nb), [o]);
    var t := Sys(Bridge.Relay(Bridge.B, na, nb), a.(outbox := []), b);
    assert a.outbox[1..] == [];
    assert Move(s, TheBridge) == Deliver(t, [o]);
    DeliverOne(t, o);
    assert b.inbox + [Bridge.TextOf(o)] == [Bridge.TextOf(o)];
  }

  /** The bridge takes B's line and queues it for A, whose inbox was empty. */
  lemma RelaysFromB(na: string, nb: string, line: string, a: Client, b: Client)
    requires b.outbox == [line] && a.inbox == [] && Strip(line) != "EXIT"
    ensures var s := Sys(Bridge.Relay(Bridge.B, na, nb), a, b);
      && Enabled(s, TheBridge)
      && Move(s, TheBridge) == Sys(Bridge.Relay(Bridge.A, na, nb), a.(inbox := ["From " + nb + ": " + Strip(line)]), b.(outbox := []))
  {
    var s := Sys(Bridge.Relay(Bridge.B, na, nb), a, b);
    var o := Bridge.Out(Bridge.A, Bridge.Forwarded(nb, Strip(line)));
    assert Bridge.Step(s.bridge, Some(Strip(line))) == Bridge.Result(Bridge.Relay(Bridge.A, na, nb), [o]);
    var t := Sys(Bridge.Relay(Bridge.A, na, nb), a, b.(outbox := []));
    assert b.outbox[1..] == [];
    assert Move(s, TheBridge) == Deliver(t, [o]);
    DeliverOne(t, o);
    assert a.inbox + [Bridge.TextOf(o)] == [Bridge.TextOf(o)];
  }

  /** B, waiting, reads A's relayed line and takes the turn. */
  lemma WaitingReadsForward(m: Bridge.Mode, a: Client, console: seq<string>, f: string)
    requires Strip(f) != "DONE"
    ensures var s := Sys(m, a, Client(TurnClient.Waiting, console, [f], []));
      && Enabled(s, TheClient(Bridge.B))
      && Move(s, TheClient(Bridge.B)) == Sys(m, a, Client(TurnClient.InTurn, console, [], []))
  {
    var s := Sys(m, a, Client(TurnClient.Waiting, console, [f], []));
    TurnClient.WaitingEnds(Some(Strip(f)));
    assert [f] == [f] + [];
    ClientReadsTo(s, Bridge.B, f, [], TurnClient.InTurn);
  }

  /** A, after sending its line, reads B's reply and (as written) goes back to waiting. */
  lemma AwaitReplyReadsForward(m: Bridge.Mode, console: seq<string>, f: string, b: Client)
    ensures var s := Sys(m, Client(TurnClient.AwaitReply, console, [f], []), b);
      && Enabled(s, TheClient(Bridge.A))
      && Move(s, TheClient(Bridge.A)) == Sys(m, Client(TurnClient.Waiting, console, [], []), b)
  {
    var s := Sys(m, Client(TurnClient.AwaitReply, console, [f], []), b);
    assert [f] == [f] + [];
    ClientReads(s, Bridge.A, f, []);
  }

  /** A's line reaches B, who takes the turn; A waits for the reply. */
  lemma TurnOfARun(na: string, nb: string, lineA: string, lineB: string, restA: seq<string>, restB: seq<string>)
    requires lineA != "" && lineA != "EXIT" && Strip(lineA) != "EXIT"
    ensures Run(Sys(Bridge.Relay(Bridge.A, na, nb),
                    Client(TurnClient.InTurn, [lineA] + restA, [], []),
                    Client(TurnClient.Waiting, [lineB] + restB, [], [])), TurnOfA) ==
      Some(Sys(Bridge.Relay(Bridge.B, na, nb),
               Client(TurnClient.AwaitReply, restA, [], []),
               Client(TurnClient.InTurn, [lineB] + restB, [], [])))
  {
    var b := Client(TurnClient.Waiting, [lineB] + restB, [], []);
    var s0 := Sys(Bridge.Relay(Bridge.A, na, nb), Client(TurnClient.InTurn, [lineA] + restA, [], []), b);
    var a1 := Client(TurnClient.AwaitReply, restA, [], [lineA]);
    var s1 := Sys(Bridge.Relay(Bridge.A, na, nb), a1, b);
    SendsOnTurn(Bridge.Relay(Bridge.A, na, nb), Bridge.A, lineA, restA, b);
    var fa := "From " + na + ": " + Strip(lineA);
    var a2 := Client(TurnClient.AwaitReply, restA, [], []);
    var s2 := Sys(Bridge.Relay(Bridge.B, na, nb), a2, b.(inbox := [fa]));
    RelaysFromA(na, nb, lineA, a1, b);
    var s3 := Sys(Bridge.Relay(Bridge.B, na, nb), a2, Client(TurnClient.InTurn, [lineB] + restB, [], []));
    ForwardIsNotDone(na, Strip(lineA));
    WaitingReadsForward(Bridge.Relay(Bridge.B, na, nb), a2, [lineB] + restB, fa);
    RunThree(TryMove, s0, TheClient(Bridge.A), TheBridge, TheClient(Bridge.B), s1, s2, s3);
  }

  /** B's line reaches A, who (as written) goes back to waiting; B waits for the reply. */
  lemma TurnOfBRun(na: string, nb: string, lineB: string, restA: seq<string>, restB: seq<string>)
    requires lineB != "" && lineB != "EXIT" && Strip(lineB) != "EXIT"
    ensures Run(Sys(Bridge.Relay(Bridge.B, na, nb),
                    Client(TurnClient.AwaitReply, restA, [], []),
                    Client(TurnClient.InTurn, [lineB] + restB, [], [])), TurnOfB) ==
      Some(Sys(Bridge.Relay(Bridge.A, na, nb),
               Client(TurnClient.Waiting, restA, [], []),
               Client(TurnClient.AwaitReply, restB, [], [])))
  {
    var a := Client(TurnClient.AwaitReply, restA, [], []);
    var s3 := Sys(Bridge.Relay(Bridge.B, na, nb), a, Client(TurnClient.InTurn, [lineB] + restB, [], []));
    var b4 := Client(TurnClient.AwaitReply, restB, [], [lineB]);
    var s4 := Sys(Bridge.Relay(Bridge.B, na, nb), a, b4);
    SendsOnTurn(Bridge.Relay(Bridge.B, na, nb), Bridge.B, lineB, restB, a);
    var fb := "From " + nb + ": " + Strip(lineB);
    var b5 := Client(TurnClient.AwaitReply, restB, [], []);
    var s5 := Sys(Bridge.Relay(Bridge.A, na, nb), a.(inbox := [fb]), b5);
    RelaysFromB(na, nb, lineB, a, b4);
    var s6 := Sys(Bridge.Relay(Bridge.A, na, nb), Client(TurnClient.Waiting, restA, [], []), b5);
    AwaitReplyReadsForward(Bridge.Relay(Bridge.A, na, nb), restA, fb, b5);
    RunThree(TryMove, s3, TheClient(Bridge.B), TheBridge, TheClient(Bridge.A), s4, s5, s6);
  }

  /**
   * After one line each way, A (as written) has gone back to waiting for a server line, B waits
   * for the reply to its own line, and the bridge waits for A's next line.
   */
  lemma FirstRoundRun(na: string, nb: string, lineA: string, lineB: string, restA: seq<string>, restB: seq<string>)
    requires lineA != "" && lineA != "EXIT" && Strip(lineA) != "EXIT"
    requires lineB != "" && lineB != "EXIT" && Strip(lineB) != "EXIT"
    ensures Run(Sys(Bridge.Relay(Bridge.A, na, nb),
                    Client(TurnClient.InTurn, [lineA] + restA, [], []),
                    Client(TurnClient.Waiting, [lineB] + restB, [], [])), FirstRound) ==
      Some(Sys(Bridge.Relay(Bridge.A, na, nb),
               Client(TurnClient.Waiting, restA, [], []),
               Client(TurnClient.AwaitReply, restB, [], [])))
  {
    TurnOfARun(na, nb, lineA, lineB, restA, restB);
    TurnOfBRun(na, nb, lineB, restA, restB);
    RunAppend(TryMove, Sys(Bridge.Relay(Bridge.A, na, nb),
                  Client(TurnClient.InTurn, [lineA] + restA, [], []),
                  Client(TurnClient.Waiting, [lineB] + restB, [], [])), TurnOfA, TurnOfB);
  }

  /** The handshake and one line each way, from the start. */
  lemma OpeningRun(nameA: string, nameB: string, lineA: string, lineB: string, restA: seq<string>, restB: seq<string>)
    requires lineA != "" && lineA != "EXIT" && Strip(lineA) != "EXIT"
    requires lineB != "" && lineB != "EXIT" && Strip(lineB) != "EXIT"
    ensures Run(Init([nameA, lineA] + restA, [nameB, lineB] + restB), Handshake + FirstRound) ==
      Some(Sys(Bridge.Relay(Bridge.A, NameFrom(nameA), NameFrom(nameB)),
               Client(TurnClient.Waiting, restA, [], []),
               Client(TurnClient.AwaitReply, restB, [], [])))
  {
    var s0 := Init([nameA, lineA] + restA, [nameB, lineB] + restB);
    HandshakeBeforeLines(nameA, nameB, lineA, lineB, restA, restB);
    FirstRoundRun(NameFrom(nameA), NameFrom(nameB), lineA, lineB, restA, restB);
    RunAppend(TryMove, s0, Handshake, FirstRound);
  }

  /** The handshake with each client's first line still to be typed. */
  lemma HandshakeBeforeLines(nameA: string, nameB: string, lineA: string, lineB: string, restA: seq<string>, restB: seq<string>)
    ensures Run(Init([nameA, lineA] + restA, [nameB, lineB] + restB), Handshake) ==
      Some(Sys(Bridge.Relay(Bridge.A, NameFrom(nameA), NameFrom(nameB)),
               Client(TurnClient.InTurn, [lineA] + restA, [], []),
               Client(TurnClient.Waiting, [lineB] + restB, [], [])))
  {
    assert [nameA, lineA] + restA == [nameA] + ([lineA] + restA);
    assert [nameB, lineB] + restB == [nameB] + ([lineB] + restB);
    HandshakeRun(nameA, nameB, [lineA] + restA, [lineB] + restB);
  }

  /**
   * The bridge and two clients deadlock after one exchange. Take any names, and any first lines
   * that are neither empty nor `EXIT`, whatever else is typed later. A is waiting for a second
   * server line, B for the reply to its line, and the bridge for A's next line. None of these is
   * ever sent.
   */
  lemma DeadlockAfterOneExchange(nameA: string, nameB: string, lineA: string, lineB: string, restA: seq<string>, restB: seq<string>)
    requires lineA != "" && lineA != "EXIT" && Strip(lineA) != "EXIT"
    requires lineB != "" && lineB != "EXIT" && Strip(lineB) != "EXIT"
    ensures var r := Run(Init([nameA, lineA] + restA, [nameB, lineB] + restB), Handshake + FirstRound);
      && r.Some?
      && r.value.bridge.Relay? && r.value.bridge.from == Bridge.A
      && r.value.a.mode == TurnClient.Waiting
      && r.value.b.mode == TurnClient.AwaitReply
      && Deadlocked(r.value)
  {
    OpeningRun(nameA, nameB, lineA, lineB, restA, restB);
    StuckAfterOneExchange(NameFrom(nameA), NameFrom(nameB), restA, restB);
  }

  /** The state the exchange ends in: every program is blocked on a read nobody will satisfy. */
  lemma StuckAfterOneExchange(na: string, nb: string, restA: seq<string>, restB: seq<string>)
    ensures Deadlocked(Sys(Bridge.Relay(Bridge.A, na, nb), Client(TurnClient.Waiting, restA, [], []), Client(TurnClient.AwaitReply, restB, [], [])))
  {
    var t := Sys(Bridge.Relay(Bridge.A, na, nb), Client(TurnClient.Waiting, restA, [], []), Client(TurnClient.AwaitReply, restB, [], []));
    forall who: Actor
      ensures !Enabled(t, who)
    {
    }
  }
}
