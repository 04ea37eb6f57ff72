/**
 * The roster of the thread-per-client chat server (`clients`, a list of
 * `(conn, name)` pairs) and its `broadcast`: send one line to every entry but
 * the excluded connection, then drop every entry whose connection failed.
 */
module Roster {
  import opened Common

  /** One element of `clients`: a connection and the display name it chose. */
  datatype Entry = Entry(conn: ConnId, name: string)

  type Roster = seq<Entry>

  /** Number of entries for connection `c`. */
  function Entries(r: Roster, c: ConnId): nat
  {
    if |r| == 0 then 0 else (if r[0].conn == c then 1 else 0) + Entries(r[1..], c)
  }

  lemma {:induction false} EntriesZero(r: Roster, c: ConnId)
    ensures Entries(r, c) == 0 <==> forall i | 0 <= i < |r| :: r[i].conn != c
  {
    if |r| > 0 {
      EntriesZero(r[1..], c);
      assert forall i | 1 <= i < |r| :: r[i] == r[1..][i - 1];
    }
  }

  lemma {:induction false} EntriesAppend(a: Roster, b: Roster, c: ConnId)
    ensures Entries(a + b, c) == Entries(a, c) + Entries(b, c)
  {
    if |a| > 0 {
      assert (a + b)[1..] == a[1..] + b;
      EntriesAppend(a[1..], b, c);
    } else {
      assert a + b == b;
    }
  }

  /**
   * The connections a broadcast is addressed to: the entries' connections in
   * roster order, without the excluded one; each other entry exactly once.
   */
  function Targets(r: Roster, except: Option<ConnId>): (ts: seq<ConnId>)
    ensures forall i | 0 <= i < |ts| :: except != Some(ts[i])
  {
    if |r| == 0 then []
    else if except == Some(r[0].conn) then Targets(r[1..], except)
    else [r[0].conn] + Targets(r[1..], except)
  }

  /** Each connection other than the excluded one is addressed once per entry it has. */
  lemma {:induction false} TargetsCounts(r: Roster, except: Option<ConnId>)
    ensures forall c: ConnId :: Count(Targets(r, except), c) == if except == Some(c) then 0 else Entries(r, c)
  {
    if |r| > 0 {
      TargetsCounts(r[1..], except);
      if except != Some(r[0].conn) {
        assert ([r[0].conn] + Targets(r[1..], except))[1..] == Targets(r[1..], except);
      }
    }
  }

  lemma {:induction false} TargetsCover(r: Roster, except: Option<ConnId>)
    ensures forall i | 0 <= i < |r| :: r[i].conn in Targets(r, except) <==> except != Some(r[i].conn)
  {
    if |r| > 0 {
      TargetsCover(r[1..], except);
      assert forall i | 1 <= i < |r| :: r[i] == r[1..][i - 1];
    }
  }

  /** The connections of a roster, in order. */
  function Conns(r: Roster): (cs: seq<ConnId>)
    ensures |cs| == |r| && forall i | 0 <= i < |r| :: cs[i] == r[i].conn
  {
    if |r| == 0 then [] else [r[0].conn] + Conns(r[1..])
  }

  /** A broadcast visits the roster in order: its targets are a subsequence of the roster's connections. */
  lemma {:induction false} TargetsInRosterOrder(r: Roster, except: Option<ConnId>)
    ensures IsSubseq(Targets(r, except), Conns(r))
  {
    if |r| > 0 {
      TargetsInRosterOrder(r[1..], except);
      var cs := Conns(r);
      assert cs[1..] == Conns(r[1..]);
      assert [cs[0]] + cs[1..] == cs;
      var ts := Targets(r, except);
      if except == Some(r[0].conn) {
        SubseqCons(ts, Conns(r[1..]), r[0].conn);
      } else {
        assert ts[1..] == Targets(r[1..], except);
      }
    }
  }

  lemma {:induction false} TargetsAppend(a: Roster, b: Roster, except: Option<ConnId>)
    ensures Targets(a + b, except) == Targets(a, except) + Targets(b, except)
  {
    if |a| > 0 {
      assert (a + b)[1..] == a[1..] + b;
      TargetsAppend(a[1..], b, except);
    } else {
      assert a + b == b;
    }
  }

  /**
   * The roster with every entry of the given connections removed. Survivors
   * keep their order; every duplicate entry of a removed connection goes.
   */
  function RemoveConns(r: Roster, dead: set<ConnId>): Roster
  {
    if |r| == 0 then []
    else if r[0].conn in dead then RemoveConns(r[1..], dead)
    else [r[0]] + RemoveConns(r[1..], dead)
  }

  /**
   * Removing connections keeps the other entries, in their order and with their
   * multiplicities, and drops every entry of a removed connection.
   */
  lemma {:induction false} RemoveConnsSpec(r: Roster, dead: set<ConnId>)
    ensures IsSubseq(RemoveConns(r, dead), r)
    ensures forall c: ConnId :: Entries(RemoveConns(r, dead), c) == if c in dead then 0 else Entries(r, c)
    ensures forall e :: e in RemoveConns(r, dead) <==> e in r && e.conn !in dead
    ensures (forall i | 0 <= i < |r| :: r[i].conn !in dead) ==> RemoveConns(r, dead) == r
  {
    if |r| > 0 {
      var t := RemoveConns(r[1..], dead);
      RemoveConnsSpec(r[1..], dead);
      assert [r[0]] + r[1..] == r;
      if r[0].conn in dead {
        SubseqCons(t, r[1..], r[0]);
      } else {
        assert ([r[0]] + t)[1..] == t;
      }
    }
  }

  lemma {:induction false} RemoveConnsExcludes(r: Roster, dead: set<ConnId>, e: Entry)
    requires e.conn in dead
    ensures e !in RemoveConns(r, dead)
  {
    if |r| > 0 {
      RemoveConnsExcludes(r[1..], dead, e);
    }
  }

  /** Cleaning up a connection twice leaves the roster as cleaning it up once. */
  lemma {:induction false} RemoveConnsIdempotent(r: Roster, dead: set<ConnId>)
    ensures RemoveConns(RemoveConns(r, dead), dead) == RemoveConns(r, dead)
  {
    var r1 := RemoveConns(r, dead);
    RemoveConnsSpec(r, dead);
    RemoveConnsSpec(r1, dead);
    assert forall i | 0 <= i < |r1| :: r1[i].conn !in dead by {
      forall i | 0 <= i < |r1|
        ensures r1[i].conn !in dead
      {
        assert r1[i] in r1;
      }
    }
  }

  lemma {:induction false} RemoveConnsAppend(a: Roster, b: Roster, dead: set<ConnId>)
    ensures RemoveConns(a + b, dead) == RemoveConns(a, dead) + RemoveConns(b, dead)
  {
    if |a| > 0 {
      assert (a + b)[1..] == a[1..] + b;
      RemoveConnsAppend(a[1..], b, dead);
    } else {
      assert a + b == b;
    }
  }

  lemma {:induction false} RemoveConnsTwice(r: Roster, d1: set<ConnId>, d2: set<ConnId>)
    ensures RemoveConns(RemoveConns(r, d1), d2) == RemoveConns(r, d1 + d2)
  {
    if |r| > 0 {
      RemoveConnsTwice(r[1..], d1, d2);
      if r[0].conn !in d1 {
        assert ([r[0]] + RemoveConns(r[1..], d1))[1..] == RemoveConns(r[1..], d1);
      }
    }
  }

  /** What a broadcast did: the sends it attempted, in order, and the roster it left. */
  datatype Fanout = Fanout(sends: seq<Send>, roster: Roster)

  /** The connections among `ts` whose send failed. */
  function Failed(ts: seq<ConnId>, failing: set<ConnId>): set<ConnId>
  {
    set c | c in ts && c in failing
  }

  /** One `sendall` of `line` to each target, failing for the connections in `failing`. */
  function Attempts(ts: seq<ConnId>, line: string, failing: set<ConnId>): (a: seq<Send>)
    ensures |a| == |ts|
    ensures forall i | 0 <= i < |ts| :: a[i] == Send(ts[i], line, ts[i] !in failing)
  {
    if |ts| == 0 then [] else [Send(ts[0], line, ts[0] !in failing)] + Attempts(ts[1..], line, failing)
  }

  /** The targets whose send failed, in order: what `to_remove` holds after the sending pass. */
  function FailedIn(ts: seq<ConnId>, failing: set<ConnId>): seq<ConnId>
  {
    if |ts| == 0 then []
    else (if ts[0] in failing then [ts[0]] else []) + FailedIn(ts[1..], failing)
  }

  lemma {:induction false} FailedInAppend(a: seq<ConnId>, b: seq<ConnId>, failing: set<ConnId>)
    ensures FailedIn(a + b, failing) == FailedIn(a, failing) + FailedIn(b, failing)
  {
    if |a| > 0 {
      assert (a + b)[1..] == a[1..] + b;
      FailedInAppend(a[1..], b, failing);
    } else {
      assert a + b == b;
    }
  }

  lemma {:induction false} TargetsSnoc(clients: Roster, i: nat, except: Option<ConnId>)
    requires i < |clients|
    ensures except == Some(clients[i].conn) ==> Targets(clients[..i + 1], except) == Targets(clients[..i], except)
    ensures except != Some(clients[i].conn) ==> Targets(clients[..i + 1], except) == Targets(clients[..i], except) + [clients[i].conn]
  {
    assert clients[..i + 1] == clients[..i] + [clients[i]];
    TargetsAppend(clients[..i], [clients[i]], except);
    var ts := Targets(clients[..i], except);
    if except == Some(clients[i].conn) {
      assert Targets([clients[i]], except) == [];
      assert ts + [] == ts;
    } else {
      assert Targets([clients[i]], except) == [clients[i].conn];
    }
  }

  lemma {:induction false} AttemptsSnoc(ts: seq<ConnId>, c: ConnId, line: string, failing: set<ConnId>)
    ensures Attempts(ts + [c], line, failing) == Attempts(ts, line, failing) + [Send(c, line, c !in failing)]
  {
  }

  lemma {:induction false} FailedInSnoc(ts: seq<ConnId>, c: ConnId, failing: set<ConnId>)
    ensures c in failing ==> FailedIn(ts + [c], failing) == FailedIn(ts, failing) + [c]
    ensures c !in failing ==> FailedIn(ts + [c], failing) == FailedIn(ts, failing)
  {
    FailedInAppend(ts, [c], failing);
    assert [c][1..] == [];
    if c !in failing {
      assert FailedIn([c], failing) == [];
      assert FailedIn(ts, failing) + [] == FailedIn(ts, failing);
    } else {
      assert FailedIn([c], failing) == [c];
    }
  }

  /**
   * `broadcast(text, except_conn)`: `text + "\n"` is attempted once per roster
   * entry other than `except`, in roster order; afterwards every entry of a
   * connection whose send failed is removed. Nothing is sent to `except`,
   * and `except` itself is never removed.
   */
  function Broadcast(r: Roster, text: string, except: Option<ConnId>, failing: set<ConnId>): (f: Fanout)
    ensures forall i | 0 <= i < |f.sends| :: except != Some(f.sends[i].to) && f.sends[i].text == text + "\n"
    ensures forall i | 0 <= i < |f.sends| :: f.sends[i].delivered <==> f.sends[i].to !in failing
    ensures forall c: ConnId :: CountTo(f.sends, c) == if except == Some(c) then 0 else Entries(r, c)
    ensures IsSubseq(f.roster, r)
    ensures forall e :: e in f.roster <==> e in r && (Some(e.conn) == except || e.conn !in failing)
    ensures (forall i | 0 <= i < |r| :: r[i].conn !in failing) ==> f.roster == r
  {
    var ts := Targets(r, except);
    var sends := Attempts(ts, text + "\n", failing);
    AttemptsCount(ts, text + "\n", failing);
    TargetsCounts(r, except);
    TargetsCover(r, except);
    RemoveConnsSpec(r, Failed(ts, failing));
    Fanout(sends, RemoveConns(r, Failed(ts, failing)))
  }

  /** Number of sends addressed to `c`. */
  function CountTo(sends: seq<Send>, c: ConnId): nat
  {
    if |sends| == 0 then 0 else (if sends[0].to == c then 1 else 0) + CountTo(sends[1..], c)
  }

  lemma {:induction false} AttemptsCount(ts: seq<ConnId>, line: string, failing: set<ConnId>)
    ensures forall c: ConnId :: CountTo(Attempts(ts, line, failing), c) == Count(ts, c)
  {
    if |ts| > 0 {
      AttemptsCount(ts[1..], line, failing);
      assert Attempts(ts, line, failing)[1..] == Attempts(ts[1..], line, failing);
    }
  }

  /** The first loop of `broadcast`: one `sendall` per entry not excluded, collecting the failed connections in `to_remove`. */
  method SendPass(clients: Roster, line: string, except: Option<ConnId>, failing: set<ConnId>)
    returns (sends: seq<Send>, toRemove: seq<ConnId>)
    ensures sends == Attempts(Targets(clients, except), line, failing)
    ensures toRemove == FailedIn(Targets(clients, except), failing)
  {
    toRemove := [];
    sends := [];
    var i := 0;
    while i < |clients|
      invariant 0 <= i <= |clients|
      invariant sends == Attempts(Targets(clients[..i], except), line, failing)
      invariant toRemove == FailedIn(Targets(clients[..i], except), failing)
    {
      var c := clients[i].conn;
      TargetsSnoc(clients, i, except);
      if Some(c) != except {
        var ts := Targets(clients[..i], except);
        AttemptsSnoc(ts, c, line, failing);
        FailedInSnoc(ts, c, failing);
        sends := sends + [Send(c, line, c !in failing)];
        if c in failing {
          toRemove := toRemove + [c];
        }
      }
      i := i + 1;
    }
    assert clients[..i] == clients;
  }

  /**
   * `for entry in clients[:]: if entry[0] is conn: clients.remove(entry)`:
   * iterating over a copy, every entry of `dead` is removed, duplicates included.
   */
  method RemoveEntries(clients: Roster, dead: ConnId) returns (after: Roster)
    ensures after == RemoveConns(clients, {dead})
  {
    var copy := clients;
    after := clients;
    var j := 0;
    while j < |copy|
      invariant 0 <= j <= |copy|
      invariant after == RemoveConns(copy[..j], {dead}) + copy[j..]
    {
      RemoveEntriesStep(copy, j, dead);
      if copy[j].conn == dead {
        after := RemoveFirst(after, copy[j]);
      }
      j := j + 1;
    }
    assert copy[..j] == copy;
  }

  /** One iteration over the copy: an entry of `dead` is the first of its kind left in the list, and goes. */
  lemma {:induction false} RemoveEntriesStep(copy: Roster, j: nat, dead: ConnId)
    requires j < |copy|
    ensures var before := RemoveConns(copy[..j], {dead}) + copy[j..];
      RemoveConns(copy[..j + 1], {dead}) + copy[j + 1..] == if copy[j].conn == dead then RemoveFirst(before, copy[j]) else before
  {
    assert copy[..j + 1] == copy[..j] + [copy[j]];
    RemoveConnsAppend(copy[..j], [copy[j]], {dead});
    assert copy[j..] == [copy[j]] + copy[j + 1..];
    var kept := RemoveConns(copy[..j], {dead});
    if copy[j].conn == dead {
      assert RemoveConns([copy[j]], {dead}) == [];
      assert kept + [] == kept;
      RemoveConnsExcludes(copy[..j], {dead}, copy[j]);
      RemoveFirstAt(kept, copy[j..]);
    } else {
      assert RemoveConns([copy[j]], {dead}) == [copy[j]];
      assert kept + [copy[j]] + copy[j + 1..] == kept + copy[j..];
    }
  }

  /** `broadcast` as written: the sending pass, then the removal of every connection collected in `to_remove`. */
  method BroadcastLoop(clients: Roster, text: string, except: Option<ConnId>, failing: set<ConnId>)
    returns (sends: seq<Send>, after: Roster)
    ensures sends == Broadcast(clients, text, except, failing).sends
    ensures after == Broadcast(clients, text, except, failing).roster
  {
    var toRemove;
    sends, toRemove := SendPass(clients, text + "\n", except, failing);
    after := clients;
    RemoveConnsSpec(clients, {});
    assert Elems(toRemove[..0]) == {};
    var k := 0;
    while k < |toRemove|
      invariant 0 <= k <= |toRemove|
      invariant after == RemoveConns(clients, Elems(toRemove[..k]))
    {
      after := RemoveEntries(after, toRemove[k]);
      RemoveOneMore(clients, toRemove, k);
      k := k + 1;
    }
    assert toRemove[..k] == toRemove;
    FailedInMembers(Targets(clients, except), failing);
    assert Elems(toRemove) == Failed(Targets(clients, except), failing);
  }

  /** Removing the next collected connection from the roster cleaned of the earlier ones. */
  lemma {:induction false} RemoveOneMore(clients: Roster, toRemove: seq<ConnId>, k: nat)
    requires k < |toRemove|
    ensures RemoveConns(RemoveConns(clients, Elems(toRemove[..k])), {toRemove[k]}) == RemoveConns(clients, Elems(toRemove[..k + 1]))
  {
    RemoveConnsTwice(clients, Elems(toRemove[..k]), {toRemove[k]});
    assert toRemove[..k + 1] == toRemove[..k] + [toRemove[k]];
    assert Elems(toRemove[..k + 1]) == Elems(toRemove[..k]) + {toRemove[k]};
  }

  lemma {:induction false} FailedInMembers(ts: seq<ConnId>, failing: set<ConnId>)
    ensures forall c :: c in FailedIn(ts, failing) <==> c in ts && c in failing
  {
    if |ts| > 0 {
      FailedInMembers(ts[1..], failing);
      assert forall c :: c in ts <==> c == ts[0] || c in ts[1..];
    }
  }
}
