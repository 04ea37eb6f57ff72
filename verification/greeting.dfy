/**
 * The greeting server (`greeting_server_Version2.py`): one connection at a time, it reads the
 * client's name with the line reader, answers `Hello {name}!` and then sends back every chunk it
 * receives, as received, until the client closes.
 */
module Greeting {
  import opened Common
  import opened Text
  import opened Framing

  /** What `handle_connection` did with one connection: the name it read, if any, and the data it sent, one entry per `sendall`. */
  datatype Session = Session(name: Option<string>, sent: seq<string>)

  function Hello(name: string): string
  {
    "Hello " + name + "!\n"
  }

  /** The echo loop: each chunk is sent back as it came, and the first empty read ends the loop. */
  function Echo(cs: Chunks): (r: seq<string>)
    ensures |r| <= |cs|
    ensures forall i | 0 <= i < |r| :: r[i] == cs[i] && r[i] != ""
    decreases |cs|
  {
    if |cs| == 0 || cs[0] == "" then [] else [cs[0]] + Echo(cs[1..])
  }

  /** `handle_connection` on a connection whose client sends the chunks `cs`. */
  function Handle(cs: Chunks): (r: Session)
    ensures r.name.None? <==> r.sent == []
    ensures r.name.Some? ==> r.sent[0] == Hello(r.name.value)
    ensures |r.sent| <= |cs|
  {
    var read := RecvLine(cs);
    if read.line.None? then Session(None, [])
    else Session(read.line, [Hello(read.line.value)] + Echo(read.rest))
  }

  /** The echo sends exactly the chunks the client delivers before it closes. */
  lemma {:induction false} EchoIsLive(cs: Chunks)
    ensures Echo(cs) == Live(cs)
    decreases |cs|
  {
    if |cs| > 0 && cs[0] != "" {
      EchoIsLive(cs[1..]);
    }
  }

  /**
   * The name is the stripped first line of everything the client delivers; without a newline
   * before the client closes there is no name and nothing is sent. Otherwise the greeting comes
   * first, then each chunk after the one that held the newline, in order and unchanged.
   */
  lemma HandleSpec(cs: Chunks)
    ensures Handle(cs).name == FirstLine(Flatten(Live(cs)))
    ensures Handle(cs).name.None? <==> '\n' !in Flatten(Live(cs))
    ensures Handle(cs).name.Some? ==>
      Handle(cs).sent == [Hello(Handle(cs).name.value)] + Live(RecvLine(cs).rest)
  {
    RecvLineIsFirstLine(cs);
    EchoIsLive(RecvLine(cs).rest);
  }

  /**
   * Nothing the client sends is echoed twice or out of order, but the text that followed the name
   * in the chunk holding its newline is never echoed: the delivered text is the consumed chunks
   * followed by exactly the echoed data.
   */
  lemma EchoIsWhatFollows(cs: Chunks)
    requires Handle(cs).name.Some?
    ensures var n := |cs| - |RecvLine(cs).rest|;
      && 0 < n
      && '\n' in cs[n - 1]
      && Flatten(Live(cs)) == Flatten(cs[..n]) + Flatten(Handle(cs).sent[1..])
  {
    var r := RecvLine(cs);
    RecvLineConsumes(cs);
    EchoIsLive(r.rest);
    assert Handle(cs).sent[1..] == Echo(r.rest);
  }

  /** A name and a line typed together reach the server in one chunk: the line is never echoed. */
  lemma PipelinedLineNotEchoed(name: string, line: string)
    requires CleanLine(name)
    ensures Handle([name + "\n" + line]) == Session(Some(name), [Hello(name)])
  {
    LineThenTail(name, line, []);
    assert [name + "\n" + line] + [] == [name + "\n" + line];
  }

  /** Sent as a chunk of its own, the same line is echoed after the greeting. */
  lemma SeparateLineEchoed(name: string, line: string)
    requires CleanLine(name) && line != ""
    ensures Handle([name + "\n", line, ""]) == Session(Some(name), [Hello(name), line])
  {
    LineAlone(name, [line, ""]);
    assert [name + "\n"] + [line, ""] == [name + "\n", line, ""];
    assert Echo([line, ""]) == [line] + Echo([""]);
  }
}
