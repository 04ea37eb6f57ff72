/**
 * The turn client for the bridge (`turn_client_Version3.py`), as it is written. After typing a
 * line, the client reads one server line, which is the peer's forwarded reply. It then clears its
 * turn flag and reads a second server line before it lets the user type again. The bridge sends
 * only one line per turn, so that second read waits for a line nobody sends (see `TurnSystem`).
 *
 * Each mode of the client is blocked on one source: the console (`input()`) or the server socket
 * (`recv_line`). A step takes what that source yields; `None` is end of file on the console
 * (`EOFError`) or the server closing the connection.
 */
module TurnClient {
  import opened Common
  import opened Text

  /**
   * `Start`: prompting for the name, not yet connected. `AwaitRole`: reading the first server line.
   * `InTurn`/`Waiting`: the `is_turn` flag set or clear at the top of the loop. `AwaitReply`: after
   * sending a line. `AwaitExitReply`: after sending `EXIT`. `Ended`: the socket is closed.
   * `Absent`: the name prompt hit end of file, so the client never connected.
   */
  datatype Mode = Start | AwaitRole | InTurn | AwaitReply | AwaitExitReply | Waiting | Ended | Absent

  datatype Source = Console | Server

  predicate Finished(m: Mode)
  {
    m.Ended? || m.Absent?
  }

  /** Where a running client is blocked. */
  function Awaits(m: Mode): Source
    requires !Finished(m)
  {
    if m.Start? || m.InTurn? then Console else Server
  }

  /** The new mode and the lines sent to the server, each followed by a newline on the wire. */
  datatype Result = Result(mode: Mode, sent: seq<string>)

  /** The client's reaction to what its source yields: a typed line, a stripped server line, or `None`. */
  function Step(m: Mode, input: Option<string>): (r: Result)
    requires !Finished(m)
    ensures |r.sent| <= 1
    ensures r.sent != [] ==> Awaits(m) == Console && input.Some?
    ensures input.None? ==> Finished(r.mode)
  {
    match m
    case Start =>
      if input.None? then Result(Absent, []) else Result(AwaitRole, [NameFrom(input.value)])
    case AwaitRole =>
      if input.None? then Result(Ended, [])
      else if StartsWith(input.value, "ROLE:A") then Result(InTurn, [])
      else Result(Waiting, [])
    case InTurn =>
      if input.None? then Result(Ended, [])
      else if input.value == "" then Result(InTurn, [])
      else if input.value == "EXIT" then Result(AwaitExitReply, ["EXIT"])
      else Result(AwaitReply, [input.value])
    case AwaitExitReply => Result(Ended, [])
    case AwaitReply =>
      // the reply is printed and `is_turn` is cleared: the loop goes on to wait for yet another line
      if input.None? then Result(Ended, []) else Result(Waiting, [])
    case Waiting =>
      if input.None? || input.value == "DONE" then Result(Ended, []) else Result(InTurn, [])
  }

  /** The first server line decides the role: only a line starting with `ROLE:A` gives the first turn. */
  lemma RoleFromFirstLine(line: string)
    ensures Step(AwaitRole, Some(line)).mode == (if StartsWith(line, "ROLE:A") then InTurn else Waiting)
    ensures Step(AwaitRole, Some(line)).sent == []
  {
  }

  /** An empty line on turn is ignored: nothing is sent and the turn stays. */
  lemma EmptyLineIgnored()
    ensures Step(InTurn, Some("")) == Result(InTurn, [])
  {
  }

  /**
   * The defect in the loop: after sending a line the client needs two server lines before it may
   * type again. The peer's reply is the first; the second must be something other than `DONE`.
   */
  lemma TwoLinesPerTurn(line: string, reply: string, next: string)
    requires line != "" && line != "EXIT"
    ensures var m1 := Step(InTurn, Some(line));
      var m2 := Step(m1.mode, Some(reply));
      && m1 == Result(AwaitReply, [line])
      && m2 == Result(Waiting, [])
      && Step(m2.mode, Some(next)).mode == (if next == "DONE" then Ended else InTurn)
  {
  }

  /** After `EXIT` the client reads at most one more line, whatever it is, and ends. */
  lemma ExitEndsClient(reply: Option<string>)
    ensures Step(InTurn, Some("EXIT")) == Result(AwaitExitReply, ["EXIT"])
    ensures Step(AwaitExitReply, reply) == Result(Ended, [])
  {
  }

  /** While waiting, `DONE` or a closed connection ends the client; any other line gives it the turn. */
  lemma WaitingEnds(input: Option<string>)
    ensures Step(Waiting, input).mode == (if input == None || input == Some("DONE") then Ended else InTurn)
  {
  }
}
