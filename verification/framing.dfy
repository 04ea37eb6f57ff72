/**
 * The line reader copied into five of the programs (`recv_line`, and
 * `recv_line_blocking` in the turn bridge). It calls `recv` until the bytes
 * gathered so far hold a newline, returns the stripped text before that
 * newline, and forgets whatever followed it in the same chunk.
 */
module Framing {
  import opened Common
  import opened Text

  /** Successive results of `conn.recv(...)`. An empty chunk means the peer closed; nothing after it is ever read. */
  type Chunks = seq<string>

  /** What one call yields: the line (`None` at end of stream) and the chunks not yet received. */
  datatype Read = Read(line: Option<string>, rest: Chunks)

  /** The chunks actually delivered: those before the first empty one. */
  function Live(cs: Chunks): (r: Chunks)
    ensures |r| <= |cs| && r == cs[..|r|]
    ensures |r| < |cs| ==> cs[|r|] == ""
  {
    if |cs| == 0 || cs[0] == "" then [] else [cs[0]] + Live(cs[1..])
  }

  /** Every chunk before the first empty one is delivered. */
  lemma {:induction false} LiveNonEmpty(cs: Chunks)
    ensures forall i | 0 <= i < |Live(cs)| :: cs[i] != ""
  {
    if |cs| > 0 && cs[0] != "" {
      LiveNonEmpty(cs[1..]);
      assert forall i | 1 <= i < |Live(cs)| :: cs[i] == cs[1..][i - 1];
    }
  }

  /** All the text of a list of chunks, in order. */
  function Flatten(cs: Chunks): string
  {
    if |cs| == 0 then "" else cs[0] + Flatten(cs[1..])
  }

  /** Position of the first newline of a text that has one. */
  function NewlineAt(s: string): (i: nat)
    requires '\n' in s
    ensures i < |s| && s[i] == '\n' && '\n' !in s[..i]
  {
    if s[0] == '\n' then 0 else 1 + NewlineAt(s[1..])
  }

  /** The reading a line reader should give of a whole stream: the stripped text before its first newline, if there is one. */
  function FirstLine(t: string): Option<string>
  {
    if '\n' in t then Some(Strip(t[..NewlineAt(t)])) else None
  }

  /** The `while True` loop with `buf` holding what was received so far (never a newline). */
  function RecvLineFrom(buf: string, cs: Chunks): (r: Read)
    requires '\n' !in buf
    ensures |r.rest| <= |cs| && r.rest == cs[|cs| - |r.rest|..]
    ensures r.line.Some? ==> |r.rest| < |cs|
    ensures r.line.None? ==> r.rest == []
    decreases |cs|
  {
    if |cs| == 0 || cs[0] == "" then Read(None, [])
    else
      var b := buf + cs[0];
      if '\n' in b then Read(Some(Strip(b[..NewlineAt(b)])), cs[1..])
      else RecvLineFrom(b, cs[1..])
  }

  /** `recv_line(conn)`. Every call that returns a line receives at least one chunk, so loops over it terminate. */
  function RecvLine(cs: Chunks): (r: Read)
    ensures |r.rest| <= |cs| && r.rest == cs[|cs| - |r.rest|..]
    ensures r.line.Some? ==> |r.rest| < |cs|
    ensures r.line.None? ==> r.rest == []
  {
    RecvLineFrom("", cs)
  }

  lemma {:induction false} NewlineAtAppend(a: string, b: string)
    requires '\n' in a
    ensures '\n' in a + b && NewlineAt(a + b) == NewlineAt(a)
    ensures (a + b)[..NewlineAt(a)] == a[..NewlineAt(a)]
  {
    if a[0] != '\n' {
      assert (a + b)[1..] == a[1..] + b;
      NewlineAtAppend(a[1..], b);
    }
  }

  lemma NoNewlineAppend(a: string, b: string)
    requires '\n' !in a && '\n' !in b
    ensures '\n' !in a + b
  {
  }

  lemma {:induction false} RecvLineFromText(buf: string, cs: Chunks)
    requires '\n' !in buf
    ensures RecvLineFrom(buf, cs).line == FirstLine(buf + Flatten(Live(cs)))
    decreases |cs|
  {
    if |cs| == 0 || cs[0] == "" {
      assert buf + Flatten(Live(cs)) == buf;
    } else {
      var b := buf + cs[0];
      var tail := Flatten(Live(cs[1..]));
      assert Flatten(Live(cs)) == cs[0] + tail;
      assert buf + Flatten(Live(cs)) == b + tail;
      if '\n' in b {
        NewlineAtAppend(b, tail);
      } else {
        RecvLineFromText(b, cs[1..]);
      }
    }
  }

  /**
   * The line returned depends only on the text delivered, not on how it was cut into chunks:
   * `None` exactly when the stream ends before any newline, otherwise the stripped text before the first newline.
   */
  lemma RecvLineIsFirstLine(cs: Chunks)
    ensures RecvLine(cs).line == FirstLine(Flatten(Live(cs)))
    ensures RecvLine(cs).line.None? <==> '\n' !in Flatten(Live(cs))
  {
    RecvLineFromText("", cs);
    assert "" + Flatten(Live(cs)) == Flatten(Live(cs));
  }

  lemma {:induction false} FlattenSplit(cs: Chunks, n: nat)
    requires n <= |cs|
    ensures Flatten(cs) == Flatten(cs[..n]) + Flatten(cs[n..])
  {
    if n > 0 {
      assert cs[..n][1..] == cs[1..][..n - 1];
      assert cs[n..] == cs[1..][n - 1..];
      FlattenSplit(cs[1..], n - 1);
    } else {
      assert cs[..n] == [];
    }
  }

  /** Chunks that are all non-empty are all delivered, and delivery goes on with what follows them. */
  lemma {:induction false} LiveAppend(a: Chunks, b: Chunks)
    requires "" !in a
    ensures Live(a + b) == a + Live(b)
  {
    if |a| > 0 {
      var c := a + b;
      assert c[0] == a[0] && c[1..] == a[1..] + b;
      assert a[0] in a;
      assert "" !in a[1..] by {
        assert forall x | x in a[1..] :: x in a;
      }
      LiveAppend(a[1..], b);
      assert a == [a[0]] + a[1..];
    } else {
      assert a + b == b;
    }
  }

  lemma LiveSplit(cs: Chunks, n: nat)
    requires n <= |cs|
    requires forall j | 0 <= j < n :: cs[j] != ""
    ensures Live(cs) == cs[..n] + Live(cs[n..])
  {
    assert cs == cs[..n] + cs[n..];
    LiveAppend(cs[..n], cs[n..]);
  }

  lemma {:induction false} RecvLineFromConsumes(buf: string, cs: Chunks)
    requires '\n' !in buf
    requires RecvLineFrom(buf, cs).line.Some?
    ensures var n := |cs| - |RecvLineFrom(buf, cs).rest|;
      && 0 < n
      && (forall j | 0 <= j < n :: cs[j] != "")
      && '\n' !in buf + Flatten(cs[..n - 1])
      && '\n' in cs[n - 1]
    decreases |cs|
  {
    var b := buf + cs[0];
    var n := |cs| - |RecvLineFrom(buf, cs).rest|;
    if '\n' in b {
      assert n == 1;
      assert Flatten(cs[..0]) == "";
      assert '\n' in cs[0];
    } else {
      RecvLineFromConsumes(b, cs[1..]);
      var m := |cs[1..]| - |RecvLineFrom(b, cs[1..]).rest|;
      assert n == m + 1;
      var f := Flatten(cs[1..][..m - 1]);
      assert '\n' !in f by {
        assert '\n' !in b + f;
      }
      assert cs[..n - 1] == [cs[0]] + cs[1..][..m - 1];
      assert Flatten(cs[..n - 1]) == cs[0] + f;
      assert '\n' !in cs[0];
      assert '\n' !in cs[0] + f;
      assert cs[n - 1] == cs[1..][m - 1];
      assert forall j | 1 <= j < n :: cs[j] == cs[1..][j - 1];
    }
  }

  /**
   * A call that returns a line consumes `n` whole chunks, the last of which holds the first newline.
   * The delivered text splits into those `n` chunks and what the next call sees; so the text after
   * the newline in chunk `n - 1` is never returned by any later call.
   */
  lemma RecvLineConsumes(cs: Chunks)
    requires RecvLine(cs).line.Some?
    ensures var r := RecvLine(cs); var n := |cs| - |r.rest|; var t := Flatten(cs[..n]);
      && 0 < n && r.rest == cs[n..]
      && (forall j | 0 <= j < n :: cs[j] != "")
      && '\n' !in Flatten(cs[..n - 1]) && '\n' in cs[n - 1]
      && '\n' in t && NewlineAt(t) >= |Flatten(cs[..n - 1])|
      && Flatten(Live(cs)) == t + Flatten(Live(r.rest))
      && r.line == Some(Strip(t[..NewlineAt(t)]))
  {
    var r := RecvLine(cs);
    var n := |cs| - |r.rest|;
    RecvLineFromConsumes("", cs);
    assert "" + Flatten(cs[..n - 1]) == Flatten(cs[..n - 1]);
    var t := Flatten(cs[..n]);
    FlattenSplit(cs[..n], n - 1);
    assert cs[..n][..n - 1] == cs[..n - 1];
    assert cs[..n][n - 1..] == [cs[n - 1]];
    assert Flatten([cs[n - 1]]) == cs[n - 1];
    assert t == Flatten(cs[..n - 1]) + cs[n - 1];
    var p := Flatten(cs[..n - 1]);
    assert t[|p|..] == cs[n - 1];
    assert '\n' in t;
    assert NewlineAt(t) >= |p|;
    LiveSplit(cs, n);
    FlattenSplit(Live(cs), n);
    assert Live(cs)[..n] == cs[..n];
    assert Live(cs)[n..] == Live(cs[n..]);
    RecvLineIsFirstLine(cs);
    NewlineAtAppend(t, Flatten(Live(r.rest)));
  }

  /** When the newline is the first chunk's, the rest of that chunk is lost and the next call starts from the second chunk. */
  lemma NewlineInFirstChunk(cs: Chunks)
    requires |cs| > 0 && '\n' in cs[0]
    ensures RecvLine(cs) == Read(Some(Strip(cs[0][..NewlineAt(cs[0])])), cs[1..])
  {
    assert "" + cs[0] == cs[0];
  }

  /** Text that a line read returns unchanged: no newline, not empty, no space at either end. */
  predicate CleanLine(line: string)
  {
    '\n' !in line && |line| > 0 && !IsSpace(line[0]) && !IsSpace(line[|line| - 1])
  }

  /**
   * A first chunk holding a clean line, a newline and anything after it:
   * the line is returned as it is and the next call starts at the second chunk. A second line
   * pipelined into the same chunk is lost.
   */
  lemma LineThenTail(line: string, tail: string, later: Chunks)
    requires CleanLine(line)
    ensures RecvLine([line + "\n" + tail] + later) == Read(Some(line), later)
  {
    var c := line + "\n" + tail;
    var cs := [c] + later;
    assert c[|line|] == '\n';
    assert c[..|line|] == line;
    assert NewlineAt(c) == |line|;
    StripKeeps(line);
    assert cs[0] == c && cs[1..] == later;
    NewlineInFirstChunk(cs);
  }

  /** A chunk holding exactly one clean line yields that line. */
  lemma LineAlone(line: string, later: Chunks)
    requires CleanLine(line)
    ensures RecvLine([line + "\n"] + later) == Read(Some(line), later)
  {
    LineThenTail(line, "", later);
    assert line + "\n" + "" == line + "\n";
  }
}
