/**
 * The single-threaded turn bridge (`bridge_turn_server.py`). It accepts client A and reads
 * its name, then accepts client B and reads its name. It tells A to start and B to wait.
 * Then it relays one line at a time, strictly alternating: from A to B, then from B to A.
 * An exact `EXIT` from either side ends the session with `DONE` to both. End of stream on
 * either side ends it with a notice to the other.
 *
 * `send_line` reports failure by returning `False`. The bridge never looks at that value,
 * so a failed send changes nothing here and the model records only what was sent.
 */
module Bridge {
  import opened Common
  import opened Text
  import opened Framing

  datatype Peer = A | B

  function Other(p: Peer): (q: Peer)
    ensures q != p
  {
    if p == A then B else A
  }

  /** Which `send_line` call produced a message. */
  datatype Kind = Role | Forwarded(sender: string, line: string) | Done | Notice(name: string)

  /** One `send_line(conn, text)`: `text` and a newline go to `to`. */
  datatype Out = Out(to: Peer, kind: Kind)

  /** The role lines: a `ROLE:` tag the client tests for, then an instruction for the user. */
  const RoleLineA: string := "ROLE:A" + " You start. Send one line and press Enter."
  const RoleLineB: string := "ROLE:B" + " Wait for peer; you will send after you receive a line."

  /** The text of a message, without its newline. */
  function TextOf(o: Out): string
  {
    match o.kind
    case Role => if o.to == A then RoleLineA else RoleLineB
    case Forwarded(sender, line) => "From " + sender + ": " + line
    case Done => "DONE"
    case Notice(name) => "NOTICE: Peer " + name + " disconnected"
  }

  /** What goes on the wire for a message. */
  function Wire(o: Out): string
  {
    TextOf(o) + "\n"
  }

  /**
   * Where `main` is: reading A's name, reading B's name, or inside the relay loop about to
   * read from `from`. `Closed` is after the `with` blocks have closed both sockets.
   */
  datatype Mode = AwaitNameA | AwaitNameB(nameA: string) | Relay(from: Peer, nameA: string, nameB: string) | Closed

  function NameOf(m: Mode, p: Peer): string
    requires m.Relay?
  {
    if p == A then m.nameA else m.nameB
  }

  /** The socket `main` is blocked reading from. */
  function Reading(m: Mode): Peer
    requires !m.Closed?
  {
    match m
    case AwaitNameA => A
    case AwaitNameB(_) => B
    case Relay(from, _, _) => from
  }

  datatype Result = Result(mode: Mode, outs: seq<Out>)

  /** What the bridge does with the line (`None` for end of stream) that `recv_line_blocking` returned from `Reading(m)`. */
  function Step(m: Mode, line: Option<string>): (r: Result)
    requires !m.Closed?
    ensures line.None? ==> r.mode.Closed?
    ensures m.Relay? && r.mode.Relay? ==>
      r.mode == m.(from := Other(m.from)) && r.outs == [Out(Other(m.from), Forwarded(NameOf(m, m.from), line.value))]
    ensures !m.Relay? && !r.mode.Relay? ==> r.outs == []
    ensures forall k | 0 <= k < |r.outs| :: r.outs[k].kind.Role? <==> !m.Relay?
  {
    match m
    case AwaitNameA =>
      if line.None? then Result(Closed, []) else Result(AwaitNameB(line.value), [])
    case AwaitNameB(nameA) =>
      if line.None? then Result(Closed, [])
      else Result(Relay(A, nameA, line.value), [Out(A, Role), Out(B, Role)])
    case Relay(from, _, _) =>
      var to := Other(from);
      if line.None? then Result(Closed, [Out(to, Notice(NameOf(m, from)))])
      else if line.value == "EXIT" then Result(Closed, [Out(to, Done), Out(from, Done)])
      else Result(m.(from := to), [Out(to, Forwarded(NameOf(m, from), line.value))])
  }

  /**
   * `main` from mode `m`, with `fromA` and `fromB` the chunks that A's and B's sockets will deliver.
   * It always ends closed. Entered in the relay loop with `from` on turn, it forwards lines to the
   * other peer, then to `from`, and so on: no peer ever gets two relayed lines in a row.
   */
  function Serve(m: Mode, fromA: Chunks, fromB: Chunks): (r: Result)
    ensures r.mode.Closed?
    ensures m.Relay? ==> Alternating(ForwardTargets(r.outs), Other(m.from))
    decreases |fromA| + |fromB|
  {
    if m.Closed? then Result(m, [])
    else
      var read := RecvLine(if Reading(m) == A then fromA else fromB);
      var s := Step(m, read.line);
      if read.line.None? then
        if m.Relay? then StopForwardsNothing(m, read.line); s else s
      else
        var next := if Reading(m) == A then Serve(s.mode, read.rest, fromB) else Serve(s.mode, fromA, read.rest);
        ForwardTargetsAppend(s.outs, next.outs);
        if m.Relay? && s.mode.Relay? then
          assert ForwardTargets(s.outs) == [Other(m.from)];
          AlternatingCons(ForwardTargets(next.outs), Other(m.from));
          Result(next.mode, s.outs + next.outs)
        else if m.Relay? then
          StopForwardsNothing(m, read.line);
          Result(next.mode, s.outs + next.outs)
        else Result(next.mode, s.outs + next.outs)
  }

  /** A relay step that ends the loop forwards nothing. */
  lemma StopForwardsNothing(m: Mode, line: Option<string>)
    requires m.Relay? && !Step(m, line).mode.Relay?
    ensures ForwardTargets(Step(m, line).outs) == []
  {
    var outs := Step(m, line).outs;
    if line.None? {
      assert outs[1..] == [];
    } else {
      assert outs == [Out(Other(m.from), Done), Out(m.from, Done)];
      assert outs[1..][1..] == [];
      assert ForwardTargets(outs[1..]) == [];
    }
  }

  /** The whole program: from accepting A until both sockets are closed. */
  function Bridge(fromA: Chunks, fromB: Chunks): Result
  {
    Serve(AwaitNameA, fromA, fromB)
  }

  /** Without a name from A nothing is sent and B's socket is never read: B is not even accepted. */
  lemma NoNameFromA(fromA: Chunks, fromB: Chunks, fromB': Chunks)
    requires RecvLine(fromA).line.None?
    ensures Bridge(fromA, fromB) == Bridge(fromA, fromB') == Result(Closed, [])
  {
  }

  /** Without a name from B nothing is sent to either side. */
  lemma NoNameFromB(fromA: Chunks, fromB: Chunks)
    requires RecvLine(fromA).line.Some? && RecvLine(fromB).line.None?
    ensures Bridge(fromA, fromB) == Result(Closed, [])
  {
    var ra := RecvLine(fromA);
    assert Bridge(fromA, fromB) == Serve(AwaitNameB(ra.line.value), ra.rest, fromB);
  }

  /** Once both names are in, the first two messages tell A to start and B to wait, before any line is relayed. */
  lemma RolesFirst(fromA: Chunks, fromB: Chunks)
    requires RecvLine(fromA).line.Some? && RecvLine(fromB).line.Some?
    ensures var r := Bridge(fromA, fromB);
      && |r.outs| >= 2
      && r.outs[0] == Out(A, Role) && TextOf(r.outs[0]) == RoleLineA
      && r.outs[1] == Out(B, Role) && TextOf(r.outs[1]) == RoleLineB
      && r.outs[2..] == Serve(Relay(A, RecvLine(fromA).line.value, RecvLine(fromB).line.value), RecvLine(fromA).rest, RecvLine(fromB).rest).outs
  {
    var ra := RecvLine(fromA);
    var rb := RecvLine(fromB);
    var m := AwaitNameB(ra.line.value);
    assert Serve(AwaitNameA, fromA, fromB).outs == Serve(m, ra.rest, fromB).outs;
    var rest := Serve(Relay(A, ra.line.value, rb.line.value), ra.rest, rb.rest).outs;
    assert Serve(m, ra.rest, fromB).outs == [Out(A, Role), Out(B, Role)] + rest;
  }

  /** The destinations of the relayed lines, in order. */
  function ForwardTargets(outs: seq<Out>): seq<Peer>
  {
    if |outs| == 0 then []
    else (if outs[0].kind.Forwarded? then [outs[0].to] else []) + ForwardTargets(outs[1..])
  }

  lemma {:induction false} ForwardTargetsAppend(a: seq<Out>, b: seq<Out>)
    ensures ForwardTargets(a + b) == ForwardTargets(a) + ForwardTargets(b)
  {
    if |a| > 0 {
      assert (a + b)[1..] == a[1..] + b;
      ForwardTargetsAppend(a[1..], b);
    } else {
      assert a + b == b;
    }
  }

  /** `ps` goes `first`, the other peer, `first`, and so on. */
  predicate Alternating(ps: seq<Peer>, first: Peer)
  {
    forall k | 0 <= k < |ps| :: ps[k] == (if k % 2 == 0 then first else Other(first))
  }

  /** One turn of the relay loop: the forward to the other peer, then the loop from the other peer's turn. */
  lemma RelayUnfold(m: Mode, fromA: Chunks, fromB: Chunks)
    requires m.Relay?
    requires RecvLine(if m.from == A then fromA else fromB).line.Some?
    requires RecvLine(if m.from == A then fromA else fromB).line.value != "EXIT"
    ensures var read := RecvLine(if m.from == A then fromA else fromB);
      var next := if m.from == A then Serve(m.(from := B), read.rest, fromB) else Serve(m.(from := A), fromA, read.rest);
      Serve(m, fromA, fromB).outs == [Out(Other(m.from), Forwarded(NameOf(m, m.from), read.line.value))] + next.outs
  {
  }

  /** Where the relay loop stops, it sends no relayed line. */
  lemma RelayStops(m: Mode, fromA: Chunks, fromB: Chunks)
    requires m.Relay?
    requires var line := RecvLine(if m.from == A then fromA else fromB).line; line.None? || line.value == "EXIT"
    ensures ForwardTargets(Serve(m, fromA, fromB).outs) == []
  {
    var read := RecvLine(if m.from == A then fromA else fromB);
    var outs := Serve(m, fromA, fromB).outs;
    if read.line.None? {
      assert outs == [Out(Other(m.from), Notice(NameOf(m, m.from)))];
      assert outs[1..] == [];
    } else {
      var dones := [Out(Other(m.from), Done), Out(m.from, Done)];
      assert Step(m, read.line) == Result(Closed, dones);
      var next := if m.from == A then Serve(Closed, read.rest, fromB) else Serve(Closed, fromA, read.rest);
      assert next == Result(Closed, []);
      assert outs == dones + [];
      assert outs[1..] == [Out(m.from, Done)] && outs[1..][1..] == [];
      assert ForwardTargets(outs[1..]) == [];
    }
  }

  lemma AlternatingCons(ps: seq<Peer>, first: Peer)
    requires Alternating(ps, Other(first))
    ensures Alternating([first] + ps, first)
  {
    var qs := [first] + ps;
    forall k | 0 <= k < |qs|
      ensures qs[k] == (if k % 2 == 0 then first else Other(first))
    {
      if k > 0 {
        assert qs[k] == ps[k - 1];
      }
    }
  }

  /** An exact `EXIT` on turn sends `DONE` to the other peer, then to the sender, and closes the bridge. */
  lemma ExitEndsSession(m: Mode)
    requires m.Relay?
    ensures Step(m, Some("EXIT")) == Result(Closed, [Out(Other(m.from), Done), Out(m.from, Done)])
  {
  }

  /** Only the exact text `EXIT` ends the session: any other spelling is relayed like a message. */
  lemma ExitIsCaseSensitive(m: Mode, line: string)
    requires m.Relay? && line != "EXIT"
    ensures Step(m, Some(line)).mode.Relay?
  {
  }

  /** End of stream from the peer on turn notifies the other peer with the lost peer's name and closes. */
  lemma PeerLostNotice(m: Mode)
    requires m.Relay?
    ensures var r := Step(m, None);
      r == Result(Closed, [Out(Other(m.from), Notice(NameOf(m, m.from)))])
      && TextOf(r.outs[0]) == "NOTICE: Peer " + NameOf(m, m.from) + " disconnected"
  {
  }

  lemma LostPeerEnds(m: Mode, fromA: Chunks, fromB: Chunks)
    requires m.Relay? && (if m.from == A then fromA else fromB) == []
    ensures Serve(m, fromA, fromB).outs == [Out(Other(m.from), Notice(NameOf(m, m.from)))]
  {
  }

  /** A line and `EXIT` typed into one chunk: the line is relayed, `EXIT` is discarded with the rest of the chunk. */
  lemma PipelinedExitLost(nameA: string, nameB: string, line: string, reply: string)
    requires CleanLine(line) && line != "EXIT"
    requires CleanLine(reply) && reply != "EXIT"
    ensures Serve(Relay(A, nameA, nameB), [line + "\n" + "EXIT\n"], [reply + "\n"]).outs ==
      [Out(B, Forwarded(nameA, line)), Out(A, Forwarded(nameB, reply)), Out(B, Notice(nameA))]
  {
    var fromA := [line + "\n" + "EXIT\n"];
    var fromB := [reply + "\n"];
    LineThenTail(line, "EXIT\n", []);
    assert fromA == fromA + [];
    LineAlone(reply, []);
    assert fromB == fromB + [];
    var m := Relay(A, nameA, nameB);
    RelayUnfold(m, fromA, fromB);
    RelayUnfold(m.(from := B), [], fromB);
    LostPeerEnds(m, [], []);
  }
}
