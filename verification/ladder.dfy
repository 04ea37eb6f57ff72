/**
 * The number ladder (`number_ladder_server_Version2.py` and `number_ladder_client_Version2.py`).
 * The client sends a name line and a target line. The server then sends 1. The client answers
 * every number `n` with `n + 1`, and the server answers every `v` with `v + 1`. This goes on
 * until the number the server is about to send reaches the target; the server sends it, then
 * `DONE`, and closes.
 *
 * Both sides read with the `recv_line` framing, so what reaches a program is a list of chunks.
 * The server never checks that the client counted correctly.
 */
module Ladder {
  import opened Common
  import opened Text
  import opened Framing

  // ---------------------------------------------------------------------------
  // Server
  // ---------------------------------------------------------------------------

  /** Why `handle_connection` returned. */
  datatype ServerEnd = NoName | NoTarget | BadTarget | ReachedTarget | ClientLeft | BadNumber

  /** The `sendall` texts of one connection, in order, and how it ended. */
  datatype ServerRun = ServerRun(sent: seq<string>, end: ServerEnd)

  const InvalidTarget: string := "ERROR: invalid target\n"
  const InvalidNumber: string := "ERROR: invalid number\n"
  const DoneLine: string := "DONE\n"

  /** A number as one line on the wire: `f"{n}\n"`. */
  function NumberLine(n: int): string
  {
    ShowInt(n) + "\n"
  }

  /** The ladder loop with `current` about to be sent and `cs` the client's chunks not yet received. */
  function Climb(current: int, target: int, cs: Chunks): (r: ServerRun)
    ensures |r.sent| > 0 && r.sent[0] == NumberLine(current)
    ensures r.end in {ReachedTarget, ClientLeft, BadNumber}
    ensures r.end == ReachedTarget ==> r.sent[|r.sent| - 1] == DoneLine
    decreases |cs|
  {
    var out := NumberLine(current);
    if current >= target then ServerRun([out, DoneLine], ReachedTarget)
    else
      var read := RecvLine(cs);
      if read.line.None? then ServerRun([out], ClientLeft)
      else match ParseInt(read.line.value) {
        case None => ServerRun([out, InvalidNumber], BadNumber)
        case Some(v) =>
          var next := Climb(v + 1, target, read.rest);
          ServerRun([out] + next.sent, next.end)
      }
  }

  /** `handle_connection` on a connection whose client sends the chunks `cs`. */
  function Serve(cs: Chunks): (r: ServerRun)
    ensures r.end in {NoName, NoTarget} <==> r.sent == []
    ensures r.end == BadTarget ==> r.sent == [InvalidTarget]
    ensures r.end !in {NoName, NoTarget, BadTarget} ==> r.sent[0] == NumberLine(1)
  {
    var name := RecvLine(cs);
    if name.line.None? then ServerRun([], NoName)
    else
      var target := RecvLine(name.rest);
      if target.line.None? then ServerRun([], NoTarget)
      else match ParseInt(target.line.value) {
        case None => ServerRun([InvalidTarget], BadTarget)
        case Some(t) => Climb(1, t, target.rest)
      }
  }

  /** A target of 1 or less is reached at once: `1`, then `DONE`, and the client is never read. */
  lemma SmallTarget(target: int, cs: Chunks)
    requires target <= 1
    ensures Climb(1, target, cs) == ServerRun([NumberLine(1), DoneLine], ReachedTarget)
  {
  }

  /**
   * The server takes the client's number on trust: whatever number `v` comes back, the next
   * rung sent is `v + 1`. Nothing checks that `v` was `current + 1`.
   */
  lemma ServerTrustsClient(current: int, target: int, v: int, rest: Chunks)
    requires current < target
    ensures Climb(current, target, [NumberLine(v)] + rest) ==
      ServerRun([NumberLine(current)] + Climb(v + 1, target, rest).sent, Climb(v + 1, target, rest).end)
  {
    NumberLineRead(v, rest);
    ParseShow(v);
  }

  /** A reply that is not a number gets `ERROR: invalid number` and ends the ladder; nothing follows it. */
  lemma BadReplyStops(current: int, target: int, line: string, rest: Chunks)
    requires current < target && CleanLine(line) && ParseInt(line).None?
    ensures Climb(current, target, [line + "\n"] + rest) == ServerRun([NumberLine(current), InvalidNumber], BadNumber)
  {
    LineAlone(line, rest);
  }

  /** A client that closes instead of replying ends the ladder silently after the number just sent. */
  lemma ClientLeavesSilently(current: int, target: int, rest: Chunks)
    requires current < target
    ensures Climb(current, target, [""] + rest) == ServerRun([NumberLine(current)], ClientLeft)
  {
    assert ([""] + rest)[0] == "";
  }

  /** What follows the numbers on a ladder that ended with `e`. */
  function Closing(e: ServerEnd): seq<string>
  {
    match e
    case ReachedTarget => [DoneLine]
    case BadNumber => [InvalidNumber]
    case _ => []
  }

  /**
   * `ns` are the numbers the server sent on a ladder ending in `r`: it starts at `current`, every
   * number but the last is below the target, and the last reached the target exactly when the
   * ladder ended there. After the numbers comes `DONE` when the target was reached,
   * `ERROR: invalid number` when the client's reply was not a number, and nothing when the
   * client closed.
   */
  ghost predicate ClimbShaped(r: ServerRun, current: int, target: int, ns: seq<int>)
  {
    && r.end in {ReachedTarget, ClientLeft, BadNumber}
    && |ns| > 0 && ns[0] == current
    && (forall k | 0 <= k < |ns| - 1 :: ns[k] < target)
    && (ns[|ns| - 1] >= target <==> r.end == ReachedTarget)
    && r.sent == Lines(ns) + Closing(r.end)
  }

  /** Whatever the client replies, the server's side of the ladder has the shape `ClimbShaped` describes. */
  lemma {:induction false} ClimbShape(current: int, target: int, cs: Chunks)
    ensures exists ns :: ClimbShaped(Climb(current, target, cs), current, target, ns)
    decreases |cs|
  {
    var r := Climb(current, target, cs);
    LinesOne(current);
    if current >= target {
      assert r.sent == Lines([current]) + Closing(r.end);
      assert ClimbShaped(r, current, target, [current]);
    } else {
      var read := RecvLine(cs);
      if read.line.None? || ParseInt(read.line.value).None? {
        assert r.sent == Lines([current]) + Closing(r.end);
        assert ClimbShaped(r, current, target, [current]);
      } else {
        var v := ParseInt(read.line.value).value;
        var next := Climb(v + 1, target, read.rest);
        assert r == ServerRun([NumberLine(current)] + next.sent, next.end);
        ClimbShape(v + 1, target, read.rest);
        var ms :| ClimbShaped(next, v + 1, target, ms);
        ShapeExtends(current, target, next, v + 1, ms);
      }
    }
  }

  /** One more rung below the target in front of a shaped ladder keeps it shaped. */
  lemma ShapeExtends(current: int, target: int, next: ServerRun, w: int, ms: seq<int>)
    requires current < target && ClimbShaped(next, w, target, ms)
    ensures ClimbShaped(ServerRun([NumberLine(current)] + next.sent, next.end), current, target, [current] + ms)
  {
    var ns := [current] + ms;
    LinesCons(current, ms);
    assert [NumberLine(current)] + next.sent == Lines(ns) + Closing(next.end);
    assert forall k | 1 <= k < |ns| :: ns[k] == ms[k - 1];
  }

  lemma LinesCons(n: int, ms: seq<int>)
    ensures Lines([n] + ms) == [NumberLine(n)] + Lines(ms)
  {
    assert ([n] + ms)[1..] == ms;
  }

  lemma LinesOne(n: int)
    ensures Lines([n]) == [NumberLine(n)]
  {
    LinesCons(n, []);
    assert [n] + [] == [n];
  }

  lemma NumberLineIsNotDone(n: int)
    ensures NumberLine(n) != DoneLine
  {
    NumberIsNotDone(n);
    NewlineInjective(ShowInt(n), "DONE");
    assert DoneLine == "DONE" + "\n";
  }

  lemma NewlineInjective(a: string, b: string)
    ensures a + "\n" == b + "\n" ==> a == b
  {
    if a + "\n" == b + "\n" {
      assert |a| == |b|;
      assert a == (a + "\n")[..|a|];
    }
  }

  /** `DONE` is sent exactly on ladders that reach the target, and then only as the very last line. */
  lemma DoneOnlyAtTarget(current: int, target: int, cs: Chunks)
    ensures var r := Climb(current, target, cs);
      && (DoneLine in r.sent <==> r.end == ReachedTarget)
      && forall k | 0 <= k < |r.sent| - 1 :: r.sent[k] != DoneLine
  {
    var r := Climb(current, target, cs);
    ClimbShape(current, target, cs);
    var ns :| ClimbShaped(r, current, target, ns);
    forall k | 0 <= k < |ns|
      ensures r.sent[k] != DoneLine
    {
      NumberLineIsNotDone(ns[k]);
    }
    assert InvalidNumber[0] != DoneLine[0];
  }

  // ---------------------------------------------------------------------------
  // Client
  // ---------------------------------------------------------------------------

  /** Why the client stopped. */
  datatype ClientEnd = TargetNotANumber | SawDone | ServerClosed | NonNumber

  /** The lines the client sent, in order, and how it stopped. */
  datatype ClientRun = ClientRun(sent: seq<string>, end: ClientEnd)

  /** The client's loop on the server's chunks `cs`. */
  function Answer(cs: Chunks): (r: ClientRun)
    ensures r.end in {SawDone, ServerClosed, NonNumber}
    ensures |r.sent| <= |cs|
    decreases |cs|
  {
    var read := RecvLine(cs);
    if read.line.None? then ClientRun([], ServerClosed)
    else if read.line.value == "DONE" then ClientRun([], SawDone)
    else match ParseInt(read.line.value) {
      case None => ClientRun([], NonNumber)
      case Some(n) =>
        var next := Answer(read.rest);
        ClientRun([NumberLine(n + 1)] + next.sent, next.end)
    }
  }

  /** A line that is neither `DONE` nor a number stops the client without a reply. */
  lemma NonNumberStops(line: string, rest: Chunks)
    requires '\n' !in line && Strip(line) != "DONE" && ParseInt(Strip(line)).None?
    ensures Answer([line + "\n"] + rest) == ClientRun([], NonNumber)
  {
    var cs := [line + "\n"] + rest;
    assert cs[0][|line|] == '\n';
    NewlineInFirstChunk(cs);
    assert cs[0][..|line|] == line;
  }

  /** A server that has closed, before anything or after earlier lines, stops the client without a reply. */
  lemma ClosedServerStops(rest: Chunks)
    ensures Answer([]) == ClientRun([], ServerClosed)
    ensures Answer([""] + rest) == ClientRun([], ServerClosed)
  {
    assert ([""] + rest)[0] == "";
  }

  /**
   * `main` with the typed name and target and the chunks the server will send. A target that is
   * not a number stops the client before it connects.
   */
  function Client(typedName: string, typedTarget: string, cs: Chunks): (r: ClientRun)
    ensures r.end == TargetNotANumber <==> ParseInt(Strip(typedTarget)).None?
    ensures r.end == TargetNotANumber <==> r.sent == []
    ensures r.end != TargetNotANumber ==>
      |r.sent| >= 2 && r.sent[..2] == [NameFrom(typedName) + "\n", NumberLine(ParseInt(Strip(typedTarget)).value)]
  {
    match ParseInt(Strip(typedTarget)) {
      case None => ClientRun([], TargetNotANumber)
      case Some(t) =>
        var rest := Answer(cs);
        ClientRun([NameFrom(typedName) + "\n", NumberLine(t)] + rest.sent, rest.end)
    }
  }

  /**
   * The server's `k` and `DONE` arrive in one chunk. The client reads `k`, the framing discards
   * `DONE`, the client answers `k + 1` to a server that has closed, and it ends on "Server closed"
   * without ever seeing `DONE`.
   */
  lemma DoneLostWhenCoalesced(k: int)
    ensures Answer([ShowInt(k) + "\n" + DoneLine]) == ClientRun([NumberLine(k + 1)], ServerClosed)
  {
    ShowIntClean(k);
    LineThenTail(ShowInt(k), DoneLine, []);
    assert [ShowInt(k) + "\n" + DoneLine] + [] == [ShowInt(k) + "\n" + DoneLine];
    NumberIsNotDone(k);
    ParseShow(k);
    assert Answer([]) == ClientRun([], ServerClosed);
  }

  // ---------------------------------------------------------------------------
  // The dialog
  // ---------------------------------------------------------------------------

  lemma NumberLineRead(n: int, rest: Chunks)
    ensures RecvLine([NumberLine(n)] + rest) == Read(Some(ShowInt(n)), rest)
  {
    ShowIntClean(n);
    LineAlone(ShowInt(n), rest);
  }

  /** The numbers the server sends from `current` on when the client counts correctly: every other integer, up to the first at or above `target`. */
  function Rungs(current: int, target: int): (ns: seq<int>)
    ensures |ns| > 0 && ns[0] == current
    decreases if current < target then target - current else 0
  {
    if current >= target then [current] else [current] + Rungs(current + 2, target)
  }

  /** Each number plus one. */
  function Succs(ns: seq<int>): (ms: seq<int>)
    ensures |ms| == |ns| && forall k | 0 <= k < |ns| :: ms[k] == ns[k] + 1
  {
    if |ns| == 0 then [] else [ns[0] + 1] + Succs(ns[1..])
  }

  /** One line per number, each in its own chunk. */
  function Lines(ns: seq<int>): (cs: Chunks)
    ensures |cs| == |ns| && forall k | 0 <= k < |ns| :: cs[k] == NumberLine(ns[k])
  {
    if |ns| == 0 then [] else [NumberLine(ns[0])] + Lines(ns[1..])
  }

  /** The ladder the server climbs from 1: the odd numbers `1, 3, 5, …`, all below the target except the last, which reaches it. */
  lemma {:induction false} RungsAreOdd(current: int, target: int)
    requires current % 2 == 1
    ensures var ns := Rungs(current, target);
      && (forall k | 0 <= k < |ns| :: ns[k] == current + 2 * k && ns[k] % 2 == 1)
      && (forall k | 0 <= k < |ns| - 1 :: ns[k] < target)
      && ns[|ns| - 1] >= target
    decreases if current < target then target - current else 0
  {
    if current < target {
      RungsAreOdd(current + 2, target);
      var ns := Rungs(current, target);
      assert forall k | 1 <= k < |ns| :: ns[k] == Rungs(current + 2, target)[k - 1];
    }
  }

  /** Fed the correct answers, each in its own chunk, the server climbs every rung and ends with `DONE`. */
  lemma {:induction false} ServerClimbs(current: int, target: int)
    ensures Climb(current, target, Lines(Succs(Rungs(current, target)))) ==
      ServerRun(Lines(Rungs(current, target)) + [DoneLine], ReachedTarget)
    decreases if current < target then target - current else 0
  {
    if current < target {
      var rest := Lines(Succs(Rungs(current + 2, target)));
      assert Lines(Succs(Rungs(current, target))) == [NumberLine(current + 1)] + rest;
      ServerTrustsClient(current, target, current + 1, rest);
      ServerClimbs(current + 2, target);
      assert Lines(Rungs(current, target)) == [NumberLine(current)] + Lines(Rungs(current + 2, target));
    }
  }

  lemma NumberIsNotDone(n: int)
    ensures ShowInt(n) != "DONE"
  {
    var s := ShowInt(n);
    if n >= 0 {
      assert IsDigit(s[0]);
    }
  }

  /** Fed the server's rungs, each in its own chunk, and then `DONE`, the client answers every rung with its successor and ends on `DONE`. */
  lemma {:induction false} ClientClimbs(ns: seq<int>)
    ensures Answer(Lines(ns) + [DoneLine]) == ClientRun(Lines(Succs(ns)), SawDone)
  {
    if |ns| == 0 {
      assert Lines(ns) + [DoneLine] == [DoneLine] + [];
      DoneRead([]);
    } else {
      var rest := Lines(ns[1..]) + [DoneLine];
      assert Lines(ns) + [DoneLine] == [NumberLine(ns[0])] + rest;
      ClientAnswers(ns[0], rest);
      ClientClimbs(ns[1..]);
      assert Lines(Succs(ns)) == [NumberLine(ns[0] + 1)] + Lines(Succs(ns[1..]));
    }
  }

  /** `DONE` ends the client whatever follows. */
  lemma DoneRead(rest: Chunks)
    ensures Answer([DoneLine] + rest) == ClientRun([], SawDone)
  {
    var done: string := "DONE";
    assert done[0] == 'D' && done[3] == 'E';
    LineAlone(done, rest);
    assert DoneLine == done + "\n";
  }

  /** The client answers a number `n` with `n + 1` and carries on with the rest. */
  lemma ClientAnswers(n: int, rest: Chunks)
    ensures Answer([NumberLine(n)] + rest) == ClientRun([NumberLine(n + 1)] + Answer(rest).sent, Answer(rest).end)
  {
    NumberLineRead(n, rest);
    NumberIsNotDone(n);
    ParseShow(n);
  }

  /** The client's half of the dialog: fed the server's ladder, it sends its name, the target and every rung's successor. */
  lemma ClientDialog(typedName: string, typedTarget: string, target: int)
    requires ParseInt(Strip(typedTarget)) == Some(target)
    ensures Client(typedName, typedTarget, Lines(Rungs(1, target)) + [DoneLine]) ==
      ClientRun([NameFrom(typedName) + "\n", NumberLine(target)] + Lines(Succs(Rungs(1, target))), SawDone)
  {
    ClientClimbs(Rungs(1, target));
  }

  /** The server's half of the dialog: fed the client's lines, it climbs the whole ladder. */
  lemma ServerDialog(name: string, target: int)
    ensures Serve([name + "\n", NumberLine(target)] + Lines(Succs(Rungs(1, target)))) ==
      ServerRun(Lines(Rungs(1, target)) + [DoneLine], ReachedTarget)
  {
    var rest := Lines(Succs(Rungs(1, target)));
    var toServer := [name + "\n"] + ([NumberLine(target)] + rest);
    assert toServer == [name + "\n", NumberLine(target)] + rest;
    NameLineRead(name, [NumberLine(target)] + rest);
    NumberLineRead(target, rest);
    ParseShow(target);
    ServeHeader(toServer, target);
    ServerClimbs(1, target);
  }

  /** A chunk ending in a newline is consumed whole by one read. */
  lemma NameLineRead(name: string, rest: Chunks)
    ensures RecvLine([name + "\n"] + rest).line.Some?
    ensures RecvLine([name + "\n"] + rest).rest == rest
  {
    var first := name + "\n";
    assert '\n' in first by {
      assert first[|first| - 1] == '\n';
    }
    NewlineInFirstChunk([first] + rest);
    assert ([first] + rest)[1..] == rest;
  }

  /** Once the name and a valid target are read, the server climbs from 1 on what is left. */
  lemma ServeHeader(cs: Chunks, target: int)
    requires RecvLine(cs).line.Some?
    requires RecvLine(RecvLine(cs).rest).line.Some?
    requires ParseInt(RecvLine(RecvLine(cs).rest).line.value) == Some(target)
    ensures Serve(cs) == Climb(1, target, RecvLine(RecvLine(cs).rest).rest)
  {
  }

  /**
   * The whole exchange, each `sendall` travelling as its own chunk. The server reads exactly what
   * the client sends and the client reads exactly what the server sends. The server climbs
   * `1, 3, 5, …` and ends with `DONE`; the client answers `2, 4, 6, …` and stops on `DONE`.
   */
  lemma LadderDialog(typedName: string, typedTarget: string, target: int)
    requires ParseInt(Strip(typedTarget)) == Some(target)
    ensures var server := ServerRun(Lines(Rungs(1, target)) + [DoneLine], ReachedTarget);
      var client := Client(typedName, typedTarget, server.sent);
      && client.end == SawDone
      && client.sent == [NameFrom(typedName) + "\n", NumberLine(target)] + Lines(Succs(Rungs(1, target)))
      && Serve(client.sent) == server
  {
    ClientDialog(typedName, typedTarget, target);
    ServerDialog(NameFrom(typedName), target);
  }
}
