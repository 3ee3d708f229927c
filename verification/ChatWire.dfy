/** The wire format of the group chat: what a11 client.c sends, how the handler of server.c
    reads and re-frames it, and how the receiver of client.c parses the broadcast stream.
    A stream is the bytes that `recv` will yield; at its end `recv` fails or reports closure. */
module ChatWire {
  import opened Bytes
  import Sequences

  const MAX_MESSAGE_SIZE: nat := 1024
  const CHAT: Byte := 0
  const TERMINATE: Byte := 1
  const NEWLINE: Byte := 10

  datatype PeerBytes = PeerBytes(addr: seq<Byte>, port: seq<Byte>)

  /** The four address and two port bytes of a connected client, in network order. */
  type Peer = p: PeerBytes | |p.addr| == 4 && |p.port| == 2 witness PeerBytes([0, 0, 0, 0], [0, 0])

  /** Why the server stops reading from a client. `TooLong` is a line that leaves no room for
      the header in `message`: the copy would pass the end of the buffer, and the model stops. */
  datatype End = Disconnected | Terminated | UnknownType(t: Byte) | TooLong

  /** Why the receiver stops. `Underflow` is a stream that ends directly after a header: the
      terminator would go before the start of `message`, and the model stops. */
  datatype Stop = Ended | ShortHeader | Underflow | SawTerminate | SawUnknown(t: Byte)

  /** One line of the client's log. */
  datatype Entry = Entry(peer: Peer, text: seq<Byte>)

  // ---------------------------------------------------------------- reading one line

  /** How many bytes a reading loop takes: up to and including a newline, or `limit`, or what
      there is. */
  function Line(s: seq<Byte>, limit: nat): (n: nat)
    ensures n <= |s| && n <= limit
  {
    if s == [] || limit == 0 then 0 else if s[0] == NEWLINE then 1 else 1 + Line(s[1..], limit - 1)
  }

  /** The loop ended without a failing `recv`. */
  predicate LineDone(s: seq<Byte>, limit: nat) {
    var n := Line(s, limit);
    n == limit || (0 < n && s[n - 1] == NEWLINE)
  }

  /** The first newline, or the limit, or the end of the stream, is what ends a line. */
  lemma {:induction false} LineIsFirst(s: seq<Byte>, limit: nat)
    ensures var n := Line(s, limit);
            && (forall k :: 0 <= k < n - 1 ==> s[k] != NEWLINE)
            && (n == limit || n == |s| || (0 < n && s[n - 1] == NEWLINE))
  {
    if s != [] && limit != 0 && s[0] != NEWLINE { LineIsFirst(s[1..], limit - 1); }
  }

  lemma {:induction false} LineUnique(s: seq<Byte>, limit: nat, n: nat)
    requires n <= |s| && n <= limit
    requires forall k :: 0 <= k < n - 1 ==> s[k] != NEWLINE
    requires n == limit || n == |s| || (0 < n && s[n - 1] == NEWLINE)
    ensures Line(s, limit) == n
  {
    if s != [] && limit != 0 && s[0] != NEWLINE {
      assert n > 0;
      assert forall k :: 0 <= k < n - 2 ==> s[1..][k] == s[k + 1];
      LineUnique(s[1..], limit - 1, n - 1);
    }
  }

  lemma LineOf(c: seq<Byte>, rest: seq<Byte>, limit: nat)
    requires NEWLINE !in c && |c| < limit
    ensures Line(c + [NEWLINE] + rest, limit) == |c| + 1 && LineDone(c + [NEWLINE] + rest, limit)
  {
    var s := c + [NEWLINE] + rest;
    assert s[|c|] == NEWLINE;
    assert forall k :: 0 <= k < |c| ==> s[k] == c[k];
    LineUnique(s, limit, |c| + 1);
  }

  // ---------------------------------------------------------------- the server's side

  function Frame(line: seq<Byte>, from: Peer): seq<Byte> { [CHAT] + from.addr + from.port + line }

  /** The longest line that fits behind type, address and port. */
  const MAX_LINE: nat := MAX_MESSAGE_SIZE - 7

  /** The messages a handler queues from the byte stream of its client, and why it stops. */
  function Served(input: seq<Byte>, from: Peer): (seq<seq<Byte>>, End)
    decreases |input|
  {
    if input == [] then ([], Disconnected)
    else if input[0] == CHAT then
      var n := Line(input[1..], MAX_MESSAGE_SIZE - 2);
      if !LineDone(input[1..], MAX_MESSAGE_SIZE - 2) then ([], Disconnected)
      else if n > MAX_LINE then ([], TooLong)
      else
        var more := Served(input[1 + n..], from);
        ([Frame(input[1..1 + n], from)] + more.0, more.1)
    else if input[0] == TERMINATE then ([], Terminated)
    else ([], UnknownType(input[0]))
  }

  /** Lines 130 to 146 of server.c: the content goes to `buffer` from index 1 on. `s` is what
      the socket still has to deliver. */
  method ReadContent(s: seq<Byte>, buffer: array<Byte>) returns (total: nat, ok: bool)
    requires buffer.Length == MAX_MESSAGE_SIZE
    modifies buffer
    ensures total == Line(s, MAX_MESSAGE_SIZE - 2) && (ok <==> LineDone(s, MAX_MESSAGE_SIZE - 2))
    ensures buffer[1..1 + total] == s[..total]
  {
    total, ok := 0, true;
    while total < MAX_MESSAGE_SIZE - 2
      invariant total <= |s| && total <= MAX_MESSAGE_SIZE - 2
      invariant forall k :: 0 <= k < total ==> s[k] != NEWLINE && buffer[1 + k] == s[k]
    {
      if total == |s| {
        LineUnique(s, MAX_MESSAGE_SIZE - 2, total);
        ok := false;
        return;
      }
      buffer[1 + total] := s[total];
      if buffer[1 + total] == NEWLINE {
        total := total + 1;
        LineUnique(s, MAX_MESSAGE_SIZE - 2, total);
        return;
      }
      total := total + 1;
    }
    LineUnique(s, MAX_MESSAGE_SIZE - 2, total);
  }

  /** Lines 148 to 165 of server.c: the relayed message is built in a buffer of its own. */
  method BuildMessage(buffer: array<Byte>, total: nat, from: Peer) returns (message: array<Byte>, length: nat)
    requires buffer.Length == MAX_MESSAGE_SIZE && total + 7 <= MAX_MESSAGE_SIZE
    ensures fresh(message) && length <= message.Length == MAX_MESSAGE_SIZE
    ensures message[..length] == Frame(buffer[1..1 + total], from)
    ensures message[..length] == [0] + from.addr + from.port + buffer[1..1 + total]
  {
    message := new Byte[MAX_MESSAGE_SIZE];
    message[0] := CHAT;
    length := 1;
    forall k | 0 <= k < 4 { message[length + k] := from.addr[k]; }
    length := length + 4;
    forall k | 0 <= k < 2 { message[length + k] := from.port[k]; }
    length := length + 2;
    forall k | 0 <= k < total { message[length + k] := buffer[1 + k]; }
    length := length + total;
  }

  /** What a loop has produced so far, followed by what it will produce. */
  function Prepend<T, E>(done: seq<T>, rest: (seq<T>, E)): (seq<T>, E) { (done + rest.0, rest.1) }

  lemma PrependMore<T, E>(done: seq<T>, more: seq<T>, rest: (seq<T>, E))
    ensures Prepend(done, (more + rest.0, rest.1)) == Prepend(done + more, rest)
  {
    assert done + (more + rest.0) == (done + more) + rest.0;
  }

  lemma PrependTo<T, E>(rest: (seq<T>, E))
    ensures Prepend([], rest) == rest
  {
    assert [] + rest.0 == rest.0;
  }

  lemma PrependNothing<T, E>(done: seq<T>, e: E)
    ensures Prepend(done, ([], e)) == (done, e)
  {
    assert done + [] == done;
  }

  /** One chat message after its type byte, lines 128 to 168 of server.c; none when the client
      disconnects in the middle of it or the line is too long. */
  method ServeChat(s: seq<Byte>, from: Peer, buffer: array<Byte>)
    returns (message: seq<seq<Byte>>, total: nat, end: End)
    requires buffer.Length == MAX_MESSAGE_SIZE
    modifies buffer
    ensures total == Line(s, MAX_MESSAGE_SIZE - 2)
    ensures message == if LineDone(s, MAX_MESSAGE_SIZE - 2) && total <= MAX_LINE then [Frame(s[..total], from)] else []
    ensures message == [] ==> end == if LineDone(s, MAX_MESSAGE_SIZE - 2) then TooLong else Disconnected
  {
    var ok;
    total, ok := ReadContent(s, buffer);
    if !ok { return [], total, Disconnected; }
    if total > MAX_LINE { return [], total, TooLong; }
    var built, length := BuildMessage(buffer, total, from);
    return [built[..length]], total, Disconnected;
  }

  lemma ServedChat(s: seq<Byte>, from: Peer)
    requires s != [] && s[0] == CHAT
    ensures var n, t := Line(s[1..], MAX_MESSAGE_SIZE - 2), s[1..];
            if !LineDone(t, MAX_MESSAGE_SIZE - 2) then Served(s, from) == ([], Disconnected)
            else if n > MAX_LINE then Served(s, from) == ([], TooLong)
            else Served(s, from) == ([Frame(t[..n], from)] + Served(t[n..], from).0, Served(t[n..], from).1)
  {
    var n := Line(s[1..], MAX_MESSAGE_SIZE - 2);
    assert s[1..1 + n] == s[1..][..n] && s[1 + n..] == s[1..][n..];
  }

  /** The reading loop of `handle_client` in server.c, lines 114 to 194. */
  method Serve(input: seq<Byte>, from: Peer) returns (queued: seq<seq<Byte>>, end: End)
    ensures (queued, end) == Served(input, from)
  {
    var buffer := new Byte[MAX_MESSAGE_SIZE];
    var s := input;
    queued := [];
    ghost var all := Served(input, from);
    PrependTo(all);
    while s != []
      invariant all == Prepend(queued, Served(s, from))
      decreases |s|
    {
      buffer[0] := s[0];
      if buffer[0] == CHAT {
        ServedChat(s, from);
        s := s[1..];
        var message, total;
        message, total, end := ServeChat(s, from, buffer);
        if message == [] {
          PrependNothing(queued, end);
          return;
        }
        PrependMore(queued, message, Served(s[total..], from));
        queued := queued + message;
        s := s[total..];
      } else {
        end := if buffer[0] == TERMINATE then Terminated else UnknownType(buffer[0]);
        PrependNothing(queued, end);
        return;
      }
    }
    PrependNothing(queued, Disconnected);
    return queued, Disconnected;
  }

  // ---------------------------------------------------------------- the receiver's side

  /** What the receiver logs from a broadcast stream, and why it stops. */
  function Received(input: seq<Byte>): (seq<Entry>, Stop)
    decreases |input|
  {
    if input == [] then ([], Ended)
    else if input[0] == CHAT then
      if |input| < 7 then ([], ShortHeader)
      else
        var n := Line(input[7..], MAX_MESSAGE_SIZE - 1);
        if n == 0 then ([], Underflow)
        else
          var more := Received(input[7 + n..]);
          ([Entry(PeerBytes(input[1..5], input[5..7]), input[7..7 + n - 1])] + more.0, more.1)
    else if input[0] == TERMINATE then ([], SawTerminate)
    else ([], SawUnknown(input[0]))
  }

  /** Lines 61 to 74 of client.c: bytes up to a newline; the last one is overwritten by the
      terminator. */
  method ReadText(s: seq<Byte>, buffer: array<Byte>, message: array<Byte>) returns (total: nat)
    requires buffer.Length == MAX_MESSAGE_SIZE == message.Length && buffer != message
    modifies buffer, message
    ensures total == Line(s, MAX_MESSAGE_SIZE - 1)
    ensures total == 0 ==> message[..] == old(message[..])
    ensures total > 0 ==> message[..total - 1] == s[..total - 1] && message[total - 1] == 0
  {
    total := 0;
    while total < MAX_MESSAGE_SIZE - 1
      invariant total <= |s| && total <= MAX_MESSAGE_SIZE - 1
      invariant forall k :: 0 <= k < total ==> s[k] != NEWLINE && message[k] == s[k]
      invariant total == 0 ==> message[..] == old(message[..])
    {
      if total == |s| { break; }
      buffer[0] := s[total];
      message[total] := buffer[0];
      total := total + 1;
      if buffer[0] == NEWLINE {
        LineUnique(s, MAX_MESSAGE_SIZE - 1, total);
        message[total - 1] := 0;
        return;
      }
    }
    LineUnique(s, MAX_MESSAGE_SIZE - 1, total);
    if total > 0 { message[total - 1] := 0; }
  }

  /** One chat message after its type byte, lines 38 to 80 of client.c; no entry when it breaks
      off. */
  method ReceiveChat(s: seq<Byte>, buffer: array<Byte>) returns (entry: seq<Entry>, total: nat)
    requires buffer.Length == MAX_MESSAGE_SIZE
    modifies buffer
    ensures |s| >= 6 ==> total == Line(s[6..], MAX_MESSAGE_SIZE - 1)
    ensures entry == if |s| < 6 || total == 0 then [] else [Entry(PeerBytes(s[..4], s[4..6]), s[6..][..total - 1])]
  {
    if |s| < 6 { return [], 0; }
    forall k | 0 <= k < 6 { buffer[k] := s[k]; }
    var peer := PeerBytes(buffer[..4], buffer[4..6]);
    assert peer == PeerBytes(s[..4], s[4..6]);
    var message := new Byte[MAX_MESSAGE_SIZE];
    total := ReadText(s[6..], buffer, message);
    if total == 0 { return [], 0; }
    entry := [Entry(peer, message[..total - 1])];
  }

  lemma ReceivedChat(s: seq<Byte>)
    requires s != [] && s[0] == CHAT
    ensures var t := s[1..];
            if |t| < 6 then Received(s) == ([], ShortHeader)
            else
              var n := Line(t[6..], MAX_MESSAGE_SIZE - 1);
              if n == 0 then Received(s) == ([], Underflow)
              else
                var more := Received(t[6..][n..]);
                Received(s) == ([Entry(PeerBytes(t[..4], t[4..6]), t[6..][..n - 1])] + more.0, more.1)
  {
    if |s| >= 7 {
      var n := Line(s[7..], MAX_MESSAGE_SIZE - 1);
      assert s[1..][6..] == s[7..] && s[1..][..4] == s[1..5] && s[1..][4..6] == s[5..7];
      if n > 0 { assert s[7..][..n - 1] == s[7..7 + n - 1] && s[7..][n..] == s[7 + n..]; }
    }
  }

  /** `receive_messages` of client.c, lines 27 to 89. */
  method Receive(input: seq<Byte>) returns (log: seq<Entry>, stop: Stop)
    ensures (log, stop) == Received(input)
  {
    var buffer := new Byte[MAX_MESSAGE_SIZE];
    var s := input;
    log := [];
    ghost var all := Received(input);
    PrependTo(all);
    while s != []
      invariant all == Prepend(log, Received(s))
      decreases |s|
    {
      buffer[0] := s[0];
      if buffer[0] == CHAT {
        ReceivedChat(s);
        s := s[1..];
        var entry, total := ReceiveChat(s, buffer);
        if entry == [] {
          stop := if |s| < 6 then ShortHeader else Underflow;
          PrependNothing(log, stop);
          return;
        }
        PrependMore(log, entry, Received(s[6..][total..]));
        log := log + entry;
        s := s[6..][total..];
      } else if buffer[0] == TERMINATE {
        PrependNothing(log, SawTerminate);
        return log, SawTerminate;
      } else {
        PrependNothing(log, SawUnknown(buffer[0]));
        return log, SawUnknown(buffer[0]);
      }
    }
    PrependNothing(log, Ended);
    return log, Ended;
  }

  /** Whole chat messages, one after the other, and nothing else. */
  predicate Whole(input: seq<Byte>)
    decreases |input|
  {
    input == [] ||
    (|input| >= 8 && input[0] == CHAT && LineDone(input[7..], MAX_MESSAGE_SIZE - 1) &&
     Whole(input[7 + Line(input[7..], MAX_MESSAGE_SIZE - 1)..]))
  }

  /** What comes after a finished line does not matter to it. */
  lemma LinePrefix(s: seq<Byte>, limit: nat, rest: seq<Byte>)
    requires LineDone(s, limit)
    ensures Line(s + rest, limit) == Line(s, limit) && LineDone(s + rest, limit)
  {
    var n := Line(s, limit);
    LineIsFirst(s, limit);
    assert forall k :: 0 <= k < n ==> (s + rest)[k] == s[k];
    LineUnique(s + rest, limit, n);
  }

  /** Whole messages followed by a bare header. */
  predicate EndsInHeader(input: seq<Byte>) {
    |input| >= 7 && input[|input| - 7] == CHAT && Whole(input[..|input| - 7])
  }

  /** A line that breaks off takes all there is. */
  lemma BrokenLine(s: seq<Byte>, limit: nat)
    requires !LineDone(s, limit)
    ensures Line(s, limit) == |s|
  {
    LineIsFirst(s, limit);
  }

  lemma HeaderAfterLine(input: seq<Byte>)
    requires |input| >= 8 && input[0] == CHAT && EndsInHeader(input)
    ensures LineDone(input[7..], MAX_MESSAGE_SIZE - 1)
    ensures EndsInHeader(input[7 + Line(input[7..], MAX_MESSAGE_SIZE - 1)..])
  {
    var j: nat := |input| - 7;
    var n := Line(input[..j][7..], MAX_MESSAGE_SIZE - 1);
    LinePrefix(input[..j][7..], MAX_MESSAGE_SIZE - 1, input[j..]);
    Sequences.SplitTail(input, 7, j);
    Sequences.TakeThenDrop(input, 7 + n, j);
  }

  lemma LineBeforeHeader(input: seq<Byte>, n: nat)
    requires |input| >= 8 && input[0] == CHAT && n == Line(input[7..], MAX_MESSAGE_SIZE - 1)
    requires LineDone(input[7..], MAX_MESSAGE_SIZE - 1) && EndsInHeader(input[7 + n..])
    ensures EndsInHeader(input)
  {
    var j: nat := |input| - 7;
    LineIsFirst(input[7..], MAX_MESSAGE_SIZE - 1);
    Sequences.TakeThenDrop(input, 7, j);
    LineUnique(input[..j][7..], MAX_MESSAGE_SIZE - 1, n);
    Sequences.TakeThenDrop(input, 7 + n, j);
  }

  /** The receiver stops for want of a text exactly when the stream breaks off there. */
  lemma {:induction false} UnderflowIffHeader(input: seq<Byte>)
    ensures Received(input).1 == Underflow <==> EndsInHeader(input)
    decreases |input|
  {
    if |input| >= 8 && input[0] == CHAT {
      var n := Line(input[7..], MAX_MESSAGE_SIZE - 1);
      UnderflowIffHeader(input[7 + n..]);
      if EndsInHeader(input) { HeaderAfterLine(input); }
      if !LineDone(input[7..], MAX_MESSAGE_SIZE - 1) { BrokenLine(input[7..], MAX_MESSAGE_SIZE - 1); }
      else if EndsInHeader(input[7 + n..]) { LineBeforeHeader(input, n); }
    } else if |input| == 7 {
      assert input[..0] == [];
    } else if |input| >= 8 {
      assert input[..|input| - 7][0] == input[0];
    }
  }

  // ---------------------------------------------------------------- the client's side

  /** Lines 184 to 196 of client.c. */
  method BuildChat(content: seq<Byte>) returns (message: array<Byte>, length: nat)
    requires |content| + 2 <= MAX_MESSAGE_SIZE
    ensures length <= message.Length && message[..length] == [0] + content + [10]
  {
    message := new Byte[MAX_MESSAGE_SIZE];
    message[0] := CHAT;
    length := 1;
    forall k | 0 <= k < |content| { message[length + k] := content[k]; }
    length := length + |content|;
    message[length] := NEWLINE;
    length := length + 1;
  }

  /** The bytes that a client sends for `contents`, without its final terminate message. */
  function Sent(contents: seq<seq<Byte>>): seq<Byte> {
    if contents == [] then [] else [CHAT] + contents[0] + [NEWLINE] + Sent(contents[1..])
  }

  const FAREWELL: seq<Byte> := [TERMINATE, NEWLINE]

  /** The byte that makes the handler and the receiver stop, and a line's end. */
  lemma TypeBytes(rest: seq<Byte>, from: Peer)
    ensures Served([1] + rest, from) == ([], Terminated) && Received([1] + rest) == ([], SawTerminate)
    ensures FAREWELL == [1, 10]
    ensures Line([10] + rest, 5) == 1
  {
  }

  // ---------------------------------------------------------------- round trips

  /** A content that survives: no newline, and room for type, address, port and newline. */
  predicate Sendable(c: seq<Byte>) { NEWLINE !in c && |c| + 8 <= MAX_MESSAGE_SIZE }

  /** What the handler makes of one newline-free content, of whatever length. */
  lemma ServeOne(c: seq<Byte>, rest: seq<Byte>, from: Peer)
    requires NEWLINE !in c
    ensures var more := Served(rest, from);
            Served([CHAT] + c + [NEWLINE] + rest, from) ==
              if Sendable(c) then ([Frame(c + [NEWLINE], from)] + more.0, more.1) else ([], TooLong)
  {
    var input := [CHAT] + c + [NEWLINE] + rest;
    assert input[1..] == c + [NEWLINE] + rest;
    if |c| < MAX_MESSAGE_SIZE - 2 {
      LineOf(c, rest, MAX_MESSAGE_SIZE - 2);
      assert input[1 + (|c| + 1)..] == rest;
      assert input[1..1 + (|c| + 1)] == c + [NEWLINE];
    } else {
      assert forall k :: 0 <= k < |c| ==> input[1..][k] == c[k];
      LineUnique(input[1..], MAX_MESSAGE_SIZE - 2, MAX_MESSAGE_SIZE - 2);
    }
  }

  /** The handler re-frames every content once, in order, and then stops as asked. */
  lemma {:induction false} ServerRoundTrip(contents: seq<seq<Byte>>, from: Peer)
    requires forall k :: 0 <= k < |contents| ==> Sendable(contents[k])
    ensures var served := Served(Sent(contents) + FAREWELL, from);
            && served.1 == Terminated && |served.0| == |contents|
            && forall k :: 0 <= k < |contents| ==> served.0[k] == Frame(contents[k] + [NEWLINE], from)
    decreases |contents|
  {
    if contents == [] {
      assert Sent(contents) + FAREWELL == FAREWELL;
    } else {
      var rest := Sent(contents[1..]) + FAREWELL;
      assert Sent(contents) + FAREWELL == [CHAT] + contents[0] + [NEWLINE] + rest;
      ServeOne(contents[0], rest, from);
      ServerRoundTrip(contents[1..], from);
    }
  }

  /** For newline-free contents the bound is exact: the handler gets through to the terminate
      message if and only if no content is longer than 1016 bytes. */
  lemma {:induction false} ServedIffShort(contents: seq<seq<Byte>>, from: Peer)
    requires forall k :: 0 <= k < |contents| ==> NEWLINE !in contents[k]
    ensures Served(Sent(contents) + FAREWELL, from).1 == Terminated <==>
        forall k :: 0 <= k < |contents| ==> |contents[k]| <= 1016
    ensures Served(Sent(contents) + FAREWELL, from).1 == Terminated ||
        Served(Sent(contents) + FAREWELL, from).1 == TooLong
    decreases |contents|
  {
    if contents == [] {
      assert Sent(contents) + FAREWELL == FAREWELL;
    } else {
      var rest := contents[1..];
      assert Sent(contents) + FAREWELL == [CHAT] + contents[0] + [NEWLINE] + (Sent(rest) + FAREWELL);
      ServeOne(contents[0], Sent(rest) + FAREWELL, from);
      ServedIffShort(rest, from);
      assert forall k :: 1 <= k < |contents| ==> contents[k] == rest[k - 1];
    }
  }

  function Concat(parts: seq<seq<Byte>>): seq<Byte> {
    if parts == [] then [] else parts[0] + Concat(parts[1..])
  }

  function Frames(entries: seq<Entry>): seq<Byte> {
    if entries == [] then [] else Frame(entries[0].text + [NEWLINE], entries[0].peer) + Frames(entries[1..])
  }

  lemma ParseOne(e: Entry, rest: seq<Byte>)
    requires Sendable(e.text)
    ensures var more := Received(rest);
            Received(Frame(e.text + [NEWLINE], e.peer) + rest) == ([e] + more.0, more.1)
  {
    var input := Frame(e.text + [NEWLINE], e.peer) + rest;
    var tail := e.text + [NEWLINE] + rest;
    assert input == [CHAT] + e.peer.addr + e.peer.port + tail;
    assert input[7..] == tail;
    LineOf(e.text, rest, MAX_MESSAGE_SIZE - 1);
    assert input[1..5] == e.peer.addr && input[5..7] == e.peer.port;
    assert input[7..7 + |e.text|] == e.text;
    assert input[7 + (|e.text| + 1)..] == rest;
  }

  lemma ReceivedCons(entries: seq<Entry>, rest: seq<Byte>)
    requires entries != [] && Sendable(entries[0].text)
    ensures var more := Received(Frames(entries[1..]) + rest);
            Received(Frames(entries) + rest) == ([entries[0]] + more.0, more.1)
  {
    assert Frames(entries) + rest ==
        Frame(entries[0].text + [NEWLINE], entries[0].peer) + (Frames(entries[1..]) + rest);
    ParseOne(entries[0], Frames(entries[1..]) + rest);
  }

  /** The receiver gets back exactly the framed entries, from any mixture of senders and
      whatever bytes their addresses and ports contain, and goes on with what follows. */
  lemma {:induction false} ReceiverRoundTrip(entries: seq<Entry>, rest: seq<Byte>)
    requires forall k :: 0 <= k < |entries| ==> Sendable(entries[k].text)
    ensures Received(Frames(entries) + rest) == (entries + Received(rest).0, Received(rest).1)
    decreases |entries|
  {
    if entries == [] {
      assert Frames(entries) + rest == rest;
      assert entries + Received(rest).0 == Received(rest).0;
    } else {
      ReceivedCons(entries, rest);
      ReceiverRoundTrip(entries[1..], rest);
      Sequences.ConsAppend(entries, Received(rest).0);
    }
  }

  lemma {:induction false} ConcatFrames(messages: seq<seq<Byte>>, contents: seq<seq<Byte>>, from: Peer)
    requires |messages| == |contents|
    requires forall k :: 0 <= k < |contents| ==> messages[k] == Frame(contents[k] + [NEWLINE], from)
    ensures Concat(messages) == Frames(Entries(contents, from))
    decreases |contents|
  {
    if contents != [] { ConcatFrames(messages[1..], contents[1..], from); }
  }

  function Entries(contents: seq<seq<Byte>>, from: Peer): (r: seq<Entry>)
    ensures |r| == |contents| && forall k :: 0 <= k < |r| ==> r[k] == Entry(from, contents[k])
  {
    if contents == [] then [] else [Entry(from, contents[0])] + Entries(contents[1..], from)
  }

  /** End to end: what a client sends, re-framed by the server and followed by the terminate
      message, is logged by a receiver content by content, in order, under the sender's
      address. Address and port bytes may be newlines. */
  lemma WireRoundTrip(contents: seq<seq<Byte>>, from: Peer)
    requires forall k :: 0 <= k < |contents| ==> Sendable(contents[k])
    ensures var served := Served(Sent(contents) + FAREWELL, from);
            Received(Concat(served.0) + FAREWELL) == (Entries(contents, from), SawTerminate)
  {
    ServerRoundTrip(contents, from);
    var served := Served(Sent(contents) + FAREWELL, from);
    ConcatFrames(served.0, contents, from);
    var es := Entries(contents, from);
    ReceiverRoundTrip(es, FAREWELL);
    assert es + [] == es;
  }
}
