/**
 * The per-connection loop of `broadcastMessage`: read a line with
 * `ReadString('\n')`; a line starting with `GET` is answered by the HTTP fallback
 * and ends the loop; any other line is written to every connection of
 * `openConnections`, verbatim to the others and as `"Received: " + line` to the
 * sender itself. The loop ends when a read fails.
 *
 * Connections are handles; what the server writes is recorded per connection,
 * in order, in an outbox. `openConnections` is the set of its keys, and the map's
 * iteration order, which Go leaves unspecified, is an arbitrary choice.
 */
module Broadcast {
  import opened Wrappers
  import opened Bytes
  import opened HttpFallback

  /** A connection, identified by its handle. */
  type Conn = nat

  /** Every write performed, per connection, in order. */
  type Outbox = map<Conn, seq<seq<byte>>>

  /** What has been written to `c`. */
  function Written(out: Outbox, c: Conn): seq<seq<byte>>
  {
    if c in out then out[c] else []
  }

  /** `c.Write(msg)`: one more write to `c`, none to any other connection. */
  function Write(out: Outbox, c: Conn, msg: seq<byte>): (r: Outbox)
    ensures Written(r, c) == Written(out, c) + [msg]
    ensures forall d :: d != c ==> Written(r, d) == Written(out, d)
  {
    out[c := Written(out, c) + [msg]]
  }

  const GetPrefix: seq<byte> := Ascii("GET")
  /** `fmt.Sprint("Received: ", message)`: two strings, so no separator is added. */
  const Acknowledgement: seq<byte> := Ascii("Received: ")

  /** `strings.HasPrefix(message, "GET")`. */
  predicate IsHttpRequest(line: seq<byte>)
  {
    HasPrefix(line, GetPrefix)
  }

  /** Whether the read loop goes on after a line. */
  datatype Flow = KeepReading | Stop

  /** The chat rule: what a line that is not an HTTP request makes the server write to `c`. */
  function ChatDeliveries(open: set<Conn>, origin: Conn, line: seq<byte>, c: Conn): seq<seq<byte>>
  {
    if c !in open then []
    else if c == origin then [Acknowledgement + line]
    else [line]
  }

  /** The fan-out rule: what one line from `origin` makes the server write to `c`. */
  function Deliveries(open: set<Conn>, origin: Conn, line: seq<byte>, site: Site, c: Conn): seq<seq<byte>>
  {
    if IsHttpRequest(line) then
      if c == origin then [HandleHttpRequest(line, site)] else []
    else ChatDeliveries(open, origin, line, c)
  }

  /** Taking one more connection out of `pending` adds one to the connections done. */
  lemma OneMoreDone(open: set<Conn>, pending: set<Conn>, item: Conn)
    requires item in pending && pending <= open
    ensures |open - (pending - {item})| == |open - pending| + 1
  {
    assert open - (pending - {item}) == (open - pending) + {item};
  }

  /**
   * The `for item := range openConnections` loop: one write to each open
   * connection, in whatever order the map yields them.
   */
  method FanOut(open: set<Conn>, origin: Conn, line: seq<byte>, out: Outbox) returns (out': Outbox, writes: nat)
    ensures forall c :: Written(out', c) == Written(out, c) + ChatDeliveries(open, origin, line, c)
    ensures writes == |open|
  {
    out' := out;
    writes := 0;
    var pending := open;
    while pending != {}
      invariant pending <= open
      invariant writes == |open - pending|
      invariant forall c :: Written(out', c) == Written(out, c) + (if c in pending then [] else ChatDeliveries(open, origin, line, c))
      decreases pending
    {
      var item :| item in pending;
      if item != origin {
        out' := Write(out', item, line);
      } else {
        out' := Write(out', item, Acknowledgement + line);
      }
      OneMoreDone(open, pending, item);
      writes := writes + 1;
      pending := pending - {item};
    }
    assert open - pending == open;
  }

  /**
   * One pass of the loop body for a line already read: the writes it performs,
   * how many there are, and whether the loop goes on.
   */
  method DispatchLine(open: set<Conn>, origin: Conn, line: seq<byte>, site: Site, out: Outbox)
    returns (out': Outbox, writes: nat, flow: Flow)
    ensures forall c :: Written(out', c) == Written(out, c) + Deliveries(open, origin, line, site, c)
    ensures writes == if IsHttpRequest(line) then 1 else |open|
    ensures flow == Stop <==> IsHttpRequest(line)
  {
    if IsHttpRequest(line) {
      var response := HandleHttpRequest(line, site);
      out' := Write(out, origin, response);
      writes := 1;
      flow := Stop;
    } else {
      out', writes := FanOut(open, origin, line, out);
      flow := KeepReading;
    }
  }

  /** For a chat line, every other open connection receives exactly the line, and a closed one nothing. */
  lemma PeersReceiveLine(open: set<Conn>, origin: Conn, line: seq<byte>, site: Site, c: Conn)
    requires !IsHttpRequest(line) && c != origin
    ensures c in open ==> Deliveries(open, origin, line, site, c) == [line]
    ensures c !in open ==> Deliveries(open, origin, line, site, c) == []
  {
  }

  /**
   * For a chat line, the sender receives `"Received: " + line` exactly when it is
   * itself open, and it never receives the bare line.
   */
  lemma OriginAcknowledged(open: set<Conn>, origin: Conn, line: seq<byte>, site: Site)
    requires !IsHttpRequest(line)
    ensures Deliveries(open, origin, line, site, origin) == [Acknowledgement + line] <==> origin in open
    ensures line !in Deliveries(open, origin, line, site, origin)
  {
    assert |Acknowledgement + line| > |line|;
  }

  /** An HTTP request line gets exactly one write, to its sender: the fallback response. */
  lemma HttpOnlyToOrigin(open: set<Conn>, origin: Conn, line: seq<byte>, site: Site, c: Conn)
    requires IsHttpRequest(line)
    ensures Deliveries(open, origin, line, site, c) == if c == origin then [HandleHttpRequest(line, site)] else []
  {
  }

  // The whole loop of one connection.

  /** The complete lines of a byte stream, as successive `ReadString('\n')` calls return them. */
  function Lines(stream: seq<byte>): (ls: seq<seq<byte>>)
    ensures forall i :: 0 <= i < |ls| ==> |ls[i]| > 0 && ls[i][|ls[i]| - 1] == Newline
    ensures forall i :: 0 <= i < |ls| ==> Newline !in ls[i][..|ls[i]| - 1]
    decreases |stream|
  {
    match ReadLine(stream)
    case None => []
    case Some((line, rest)) => [line] + Lines(rest)
  }

  /** The bytes after the last newline: a partial line that `ReadString` returns with an error. */
  function Unterminated(stream: seq<byte>): seq<byte>
    decreases |stream|
  {
    match ReadLine(stream)
    case None => stream
    case Some((_, rest)) => Unterminated(rest)
  }

  function Concat(ls: seq<seq<byte>>): seq<byte>
  {
    if ls == [] then [] else ls[0] + Concat(ls[1..])
  }

  /** Splitting into lines loses nothing: the lines, then the unterminated rest, are the stream. */
  lemma {:induction false} LinesCoverStream(stream: seq<byte>)
    ensures Concat(Lines(stream)) + Unterminated(stream) == stream
    ensures Newline !in Unterminated(stream)
    decreases |stream|
  {
    var next := ReadLine(stream);
    if next.Some? {
      var line := next.value.0;
      var rest := next.value.1;
      LinesCoverStream(rest);
      var ls := Lines(rest);
      assert Lines(stream) == [line] + ls;
      assert ([line] + ls)[1..] == ls;
      assert Concat(Lines(stream)) == line + Concat(ls);
      assert Unterminated(stream) == Unterminated(rest);
    }
  }

  /** What the session of `origin` writes to `c`: line after line, until a `GET` line. */
  function SessionDeliveries(open: set<Conn>, origin: Conn, lines: seq<seq<byte>>, site: Site, c: Conn): seq<seq<byte>>
  {
    if lines == [] then []
    else
      var rest := if IsHttpRequest(lines[0]) then [] else SessionDeliveries(open, origin, lines[1..], site, c);
      Deliveries(open, origin, lines[0], site, c) + rest
  }

  /**
   * The loop of `broadcastMessage` on the bytes `stream` that `origin` sends
   * before its connection fails: every write it performs, and how many lines it reads.
   */
  method ServeConnection(open: set<Conn>, origin: Conn, stream: seq<byte>, site: Site)
    returns (out: Outbox, linesRead: nat)
    ensures forall c :: Written(out, c) == SessionDeliveries(open, origin, Lines(stream), site, c)
    ensures linesRead <= |Lines(stream)|
    ensures var chat := ChatLines(Lines(stream));
      linesRead == |chat| + (if |chat| < |Lines(stream)| then 1 else 0)
  {
    out := map[];
    linesRead := 0;
    var rest := stream;
    while true
      invariant linesRead + |Lines(rest)| == |Lines(stream)|
      invariant linesRead + LinesRead(Lines(rest)) == LinesRead(Lines(stream))
      invariant forall c ::
        Written(out, c) + SessionDeliveries(open, origin, Lines(rest), site, c) == SessionDeliveries(open, origin, Lines(stream), site, c)
      decreases |rest|
    {
      var read := ReadLine(rest);
      if read.None? {
        break;
      }
      var line, next := read.value.0, read.value.1;
      SessionStep(open, origin, rest, site);
      LinesReadStep(rest);
      var out', writes, flow := DispatchLine(open, origin, line, site, out);
      SessionProgress(open, origin, stream, rest, site, out, out');
      out := out';
      linesRead := linesRead + 1;
      if flow == Stop {
        break;
      }
      rest := next;
    }
  }

  /**
   * The loop invariant of `ServeConnection` survives one more line: a `GET` line
   * completes the session, any other line leaves the rest of the stream to go.
   */
  lemma SessionProgress(open: set<Conn>, origin: Conn, stream: seq<byte>, rest: seq<byte>, site: Site, out: Outbox, out': Outbox)
    requires ReadLine(rest).Some?
    requires forall c ::
      Written(out, c) + SessionDeliveries(open, origin, Lines(rest), site, c) == SessionDeliveries(open, origin, Lines(stream), site, c)
    requires forall c :: Written(out', c) == Written(out, c) + Deliveries(open, origin, ReadLine(rest).value.0, site, c)
    ensures var line, next := ReadLine(rest).value.0, ReadLine(rest).value.1;
      forall c :: Written(out', c) + (if IsHttpRequest(line) then [] else SessionDeliveries(open, origin, Lines(next), site, c))
        == SessionDeliveries(open, origin, Lines(stream), site, c)
  {
    var line, next := ReadLine(rest).value.0, ReadLine(rest).value.1;
    SessionStep(open, origin, rest, site);
    forall c
      ensures Written(out', c) + (if IsHttpRequest(line) then [] else SessionDeliveries(open, origin, Lines(next), site, c))
        == SessionDeliveries(open, origin, Lines(stream), site, c)
    {
      var tail := if IsHttpRequest(line) then [] else SessionDeliveries(open, origin, Lines(next), site, c);
      AppendStep(Written(out, c), Deliveries(open, origin, line, site, c), tail,
        SessionDeliveries(open, origin, Lines(rest), site, c), SessionDeliveries(open, origin, Lines(stream), site, c));
    }
  }

  lemma AppendStep<T>(before: seq<T>, step: seq<T>, tail: seq<T>, remaining: seq<T>, total: seq<T>)
    requires before + remaining == total && remaining == step + tail
    ensures (before + step) + tail == total
  {
  }

  /** Reading one line off the stream takes its deliveries off the front of the session's. */
  lemma SessionStep(open: set<Conn>, origin: Conn, stream: seq<byte>, site: Site)
    requires ReadLine(stream).Some?
    ensures var line, next := ReadLine(stream).value.0, ReadLine(stream).value.1;
      && |Lines(stream)| == |Lines(next)| + 1
      && forall c ::
        SessionDeliveries(open, origin, Lines(stream), site, c)
        == Deliveries(open, origin, line, site, c) + (if IsHttpRequest(line) then [] else SessionDeliveries(open, origin, Lines(next), site, c))
  {
    var line, next := ReadLine(stream).value.0, ReadLine(stream).value.1;
    assert Lines(stream) == [line] + Lines(next);
    assert Lines(stream)[1..] == Lines(next);
  }

  /** The chat lines of a session: those before the first `GET` line. */
  function ChatLines(lines: seq<seq<byte>>): (chat: seq<seq<byte>>)
    ensures |chat| <= |lines| && chat == lines[..|chat|]
    ensures forall i :: 0 <= i < |chat| ==> !IsHttpRequest(chat[i])
    ensures |chat| < |lines| ==> IsHttpRequest(lines[|chat|])
  {
    if lines == [] || IsHttpRequest(lines[0]) then [] else [lines[0]] + ChatLines(lines[1..])
  }

  /** How many lines a session reads: its chat lines, and the `GET` line after them if there is one. */
  function LinesRead(lines: seq<seq<byte>>): nat
  {
    var chat := ChatLines(lines);
    |chat| + (if |chat| < |lines| then 1 else 0)
  }

  /** Reading one line counts it, and a `GET` line is the last one read. */
  lemma LinesReadStep(stream: seq<byte>)
    requires ReadLine(stream).Some?
    ensures var line, next := ReadLine(stream).value.0, ReadLine(stream).value.1;
      LinesRead(Lines(stream)) == 1 + (if IsHttpRequest(line) then 0 else LinesRead(Lines(next)))
  {
    var line, next := ReadLine(stream).value.0, ReadLine(stream).value.1;
    assert Lines(stream) == [line] + Lines(next);
    assert Lines(stream)[1..] == Lines(next);
  }

  /** Over a whole session, another open connection receives exactly the chat lines, in order. */
  lemma {:induction false} PeerSession(open: set<Conn>, origin: Conn, lines: seq<seq<byte>>, site: Site, c: Conn)
    requires c != origin
    ensures SessionDeliveries(open, origin, lines, site, c) == if c in open then ChatLines(lines) else []
  {
    if lines != [] && !IsHttpRequest(lines[0]) {
      PeerSession(open, origin, lines[1..], site, c);
    }
  }

  /** Each chat line with the acknowledgement before it. */
  function Acknowledged(lines: seq<seq<byte>>): (acks: seq<seq<byte>>)
    ensures |acks| == |lines|
    ensures forall i :: 0 <= i < |lines| ==> acks[i] == Acknowledgement + lines[i]
  {
    if lines == [] then [] else [Acknowledgement + lines[0]] + Acknowledged(lines[1..])
  }

  /**
   * Over a whole session, the sender receives an acknowledgement of each chat line
   * if it is open, then the HTTP response if the session ended on a `GET` line.
   */
  lemma {:induction false} OriginSession(open: set<Conn>, origin: Conn, lines: seq<seq<byte>>, site: Site)
    ensures var chat := ChatLines(lines);
      SessionDeliveries(open, origin, lines, site, origin)
      == (if origin in open then Acknowledged(chat) else [])
        + (if |chat| < |lines| then [HandleHttpRequest(lines[|chat|], site)] else [])
  {
    if lines != [] && !IsHttpRequest(lines[0]) {
      OriginSession(open, origin, lines[1..], site);
      var chat := ChatLines(lines);
      assert chat[1..] == ChatLines(lines[1..]);
      assert Acknowledged(chat)[1..] == Acknowledged(chat[1..]);
    }
  }

  /** Three open connections 0, 1 and 2; connection 0 sends "hi\n". */
  lemma ThreeConnectionExample(site: Site)
    ensures Deliveries({0, 1, 2}, 0, Ascii("hi\n"), site, 1) == [Ascii("hi\n")]
    ensures Deliveries({0, 1, 2}, 0, Ascii("hi\n"), site, 2) == [Ascii("hi\n")]
    ensures Deliveries({0, 1, 2}, 0, Ascii("hi\n"), site, 0) == [Ascii("Received: hi\n")]
  {
    assert Ascii("hi\n")[0] != GetPrefix[0];
    assert "Received: hi\n" == "Received: " + "hi\n";
    AsciiConcat("Received: ", "hi\n");
  }
}
