/** From the bytes that the clients of a11 send to the lines that a client logs: the byte
    streams, cut into the inputs of the server's transition system, decide what each handler
    has sent, and through the broadcast log what every client writes down. */
module ChatEndToEnd {
  import opened Bytes
  import opened ChatModel
  import ChatLocks
  import ChatRegistry
  import ChatDelivery
  import ChatTermination
  import opened ChatRuns
  import opened ChatWire
  import opened ChatClientLog

  // ---------------------------------------------------------------- from bytes to inputs

  /** What the calls to `recv` of a handler yield on a byte stream: a type byte, then for a
      chat message its content without the newline. Afterwards the connection is closed. */
  function Inputs(stream: seq<Byte>): seq<Input>
    decreases |stream|
  {
    if stream == [] then []
    else if stream[0] == CHAT then
      var n := Line(stream[1..], MAX_MESSAGE_SIZE - 2);
      if !LineDone(stream[1..], MAX_MESSAGE_SIZE - 2) || n > MAX_LINE then [GotChat]
      else [GotChat, GotBody(stream[1..n])] + Inputs(stream[1 + n..])
    else if stream[0] == TERMINATE then [GotTerminate]
    else [GotOther]
  }

  /** The contents among some inputs. */
  function Bodies(inputs: seq<Input>): seq<seq<Byte>> {
    if inputs == [] then []
    else (if inputs[0].GotBody? then [inputs[0].text] else []) + Bodies(inputs[1..])
  }

  /** The contents in a byte stream, up to where the handler stops reading. */
  function Texts(stream: seq<Byte>): seq<seq<Byte>> { Bodies(Inputs(stream)) }

  function Framed(contents: seq<seq<Byte>>, from: Peer): (r: seq<seq<Byte>>)
    ensures |r| == |contents| && forall k :: 0 <= k < |r| ==> r[k] == Frame(contents[k] + [NEWLINE], from)
  {
    if contents == [] then [] else [Frame(contents[0] + [NEWLINE], from)] + Framed(contents[1..], from)
  }

  lemma BodiesChat(text: seq<Byte>, rest: seq<Input>)
    ensures Bodies([GotChat, GotBody(text)] + rest) == [text] + Bodies(rest)
  {
    var all := [GotChat, GotBody(text)] + rest;
    assert all[1..] == [GotBody(text)] + rest && all[1..][1..] == rest;
  }

  lemma BodiesOne(i: Input)
    ensures Bodies([i]) == if i.GotBody? then [i.text] else []
  {
    assert [i][1..] == [];
  }

  lemma FramedCons(text: seq<Byte>, rest: seq<seq<Byte>>, from: Peer)
    ensures Framed([text] + rest, from) == [Frame(text + [NEWLINE], from)] + Framed(rest, from)
  {
    assert ([text] + rest)[1..] == rest;
  }

  /** A whole line that fits stands at the head of the stream. */
  predicate HasLine(stream: seq<Byte>) {
    && stream != [] && stream[0] == CHAT
    && LineDone(stream[1..], MAX_MESSAGE_SIZE - 2) && Line(stream[1..], MAX_MESSAGE_SIZE - 2) <= MAX_LINE
  }

  function AfterLine(stream: seq<Byte>): seq<Byte>
    requires HasLine(stream)
  {
    stream[1 + Line(stream[1..], MAX_MESSAGE_SIZE - 2)..]
  }

  /** What a line at the head of a stream contributes. */
  lemma LineAtHead(stream: seq<Byte>, from: Peer) returns (text: seq<Byte>)
    requires HasLine(stream)
    ensures Sendable(text) && Inputs(stream) == [GotChat, GotBody(text)] + Inputs(AfterLine(stream))
    ensures Served(stream, from).0 == [Frame(text + [NEWLINE], from)] + Served(AfterLine(stream), from).0
    ensures Served(stream, from).1 == Served(AfterLine(stream), from).1
  {
    var n := Line(stream[1..], MAX_MESSAGE_SIZE - 2);
    LineIsFirst(stream[1..], MAX_MESSAGE_SIZE - 2);
    text := stream[1..n];
    assert stream[1..1 + n] == text + [NEWLINE];
    assert forall k :: 0 <= k < n - 1 ==> text[k] == stream[1..][k];
  }

  /** Cut into inputs, the stream makes the handler queue what it queues byte by byte, and stop
      at a request exactly if it does so byte by byte. All contents in it are short lines. */
  predicate Matches(stream: seq<Byte>, from: Peer) {
    && Framed(Texts(stream), from) == Served(stream, from).0 && AllContentsSendable(Texts(stream))
    && (GotTerminate in Inputs(stream) <==> Served(stream, from).1 == Terminated)
  }

  lemma LineMatches(stream: seq<Byte>, from: Peer)
    requires HasLine(stream) && Matches(AfterLine(stream), from)
    ensures Matches(stream, from)
  {
    var text := LineAtHead(stream, from);
    BodiesChat(text, Inputs(AfterLine(stream)));
    FramedCons(text, Texts(AfterLine(stream)), from);
  }

  lemma StopMatches(stream: seq<Byte>, from: Peer)
    requires !HasLine(stream)
    ensures Matches(stream, from)
  {
    BodiesOne(GotChat);
    BodiesOne(GotTerminate);
    BodiesOne(GotOther);
  }

  lemma {:induction false} InputsMatchBytes(stream: seq<Byte>, from: Peer)
    ensures Matches(stream, from)
    decreases |stream|
  {
    if HasLine(stream) {
      InputsMatchBytes(AfterLine(stream), from);
      LineMatches(stream, from);
    } else {
      StopMatches(stream, from);
    }
  }

  predicate AllContentsSendable(contents: seq<seq<Byte>>) { forall k :: 0 <= k < |contents| ==> Sendable(contents[k]) }

  /** The inputs of a client that sends `contents` and then asks to stop. */
  function Script(contents: seq<seq<Byte>>): seq<Input> {
    if contents == [] then [GotTerminate] else [GotChat, GotBody(contents[0])] + Script(contents[1..])
  }

  lemma {:induction false} InputsOfSent(contents: seq<seq<Byte>>)
    requires AllContentsSendable(contents)
    ensures Inputs(Sent(contents) + FAREWELL) == Script(contents)
    decreases |contents|
  {
    if contents == [] {
      assert Sent(contents) + FAREWELL == FAREWELL;
    } else {
      var c, rest := contents[0], Sent(contents[1..]) + FAREWELL;
      var stream := Sent(contents) + FAREWELL;
      assert stream == [CHAT] + (c + [NEWLINE] + rest);
      assert stream[1..] == c + [NEWLINE] + rest;
      LineOf(c, rest, MAX_MESSAGE_SIZE - 2);
      assert stream[1..|c| + 1] == c && stream[1 + (|c| + 1)..] == rest;
      InputsOfSent(contents[1..]);
    }
  }

  lemma {:induction false} BodiesOfScript(contents: seq<seq<Byte>>)
    ensures Bodies(Script(contents)) == contents
  {
    if contents == [] {
      BodiesOne(GotTerminate);
    } else {
      BodiesOfScript(contents[1..]);
      BodiesChat(contents[0], Script(contents[1..]));
    }
  }

  /** The contents in what a client sends are the contents it sends. */
  lemma TextsOfSent(contents: seq<seq<Byte>>)
    requires AllContentsSendable(contents)
    ensures Texts(Sent(contents) + FAREWELL) == contents
  {
    InputsOfSent(contents);
    BodiesOfScript(contents);
  }

  // ---------------------------------------------------------------- runs on given streams

  predicate Reads(s: State, x: Action) {
    x.H? && x.h < |s.hs| && (s.hs[x.h].pc == HRecv || s.hs[x.h].pc == HBody)
  }

  /** A handler that reads gets the next input of its client, or finds the connection closed. */
  predicate Takes(s: State, x: Action, left: nat -> seq<Input>) {
    Reads(s, x) ==> x.input == Closed || (left(x.h) != [] && x.input == left(x.h)[0])
  }

  function LeftAfter(s: State, x: Action, left: nat -> seq<Input>): nat -> seq<Input> {
    if Reads(s, x) then (k: nat) => if k == x.h && left(k) != [] then left(k)[1..] else left(k) else left
  }

  /** `xs` leads from `s` to `t`, the handlers reading what is left of their clients' inputs. */
  predicate FedLeads(s: State, xs: seq<Action>, t: State, left: nat -> seq<Input>)
    decreases |xs|
  {
    if xs == [] then s == t
    else Enabled(s, xs[0]) && Takes(s, xs[0], left) && FedLeads(Next(s, xs[0]), xs[1..], t, LeftAfter(s, xs[0], left))
  }

  /** The messages of sender `h` with these contents. */
  function Chats(h: nat, contents: seq<seq<Byte>>): (r: seq<Msg>)
    ensures |r| == |contents| && forall k :: 0 <= k < |r| ==> r[k] == Chat(h, contents[k])
  {
    if contents == [] then [] else Chats(h, contents[..|contents| - 1]) + [Chat(h, contents[|contents| - 1])]
  }

  /** Inputs as a stream yields them to a handler that is about to read a type byte. */
  predicate InTurn(left: seq<Input>) {
    left != [] ==>
      match left[0]
      case GotChat => |left| > 1 ==> left[1].GotBody? && InTurn(left[2..])
      case GotTerminate => |left| == 1
      case GotOther => |left| == 1
      case _ => false
  }

  lemma {:induction false} InputsInTurn(stream: seq<Byte>)
    ensures InTurn(Inputs(stream))
    decreases |stream|
  {
    if stream != [] && stream[0] == CHAT {
      var n := Line(stream[1..], MAX_MESSAGE_SIZE - 2);
      if LineDone(stream[1..], MAX_MESSAGE_SIZE - 2) && n <= MAX_LINE {
        InputsInTurn(stream[1 + n..]);
        assert Inputs(stream)[2..] == Inputs(stream[1 + n..]);
      }
    }
  }

  predicate AboutToRead(pc: HPc) { pc == HRecv || (pc.Queueing? && pc.ret == ToRecv) }

  /** Where handler `h` stands on a stream with these contents: what it has sent and the
      contents among what is left make up all of them, and nothing is left for one that took
      the request to stop. */
  predicate Standing(x: Handler, h: nat, contents: seq<seq<Byte>>, left: seq<Input>) {
    var n := |x.sent|;
    && n <= |contents| && x.sent == Chats(h, contents[..n])
    && (x.sentTerm ==> n == |contents|)
    && (AboutToRead(x.pc) ==> InTurn(left) && Bodies(left) == contents[n..])
    && (x.pc == HBody ==> InTurn([GotChat] + left) && Bodies(left) == contents[n..])
  }

  predicate StandingAt(s: State, h: nat, contents: nat -> seq<seq<Byte>>, left: nat -> seq<Input>)
    requires h < |s.hs|
  {
    Standing(s.hs[h], h, contents(h), left(h))
  }

  ghost predicate FedInv(s: State, contents: nat -> seq<seq<Byte>>, left: nat -> seq<Input>) {
    && (forall h: nat :: h < |s.hs| ==> StandingAt(s, h, contents, left))
    && (forall h: nat :: h >= |s.hs| ==> InTurn(left(h)) && Bodies(left(h)) == contents(h))
  }

  lemma ReadsChat(x: Handler, h: nat, contents: seq<seq<Byte>>, left: seq<Input>)
    requires Standing(x, h, contents, left) && x.pc == HRecv && left != []
    ensures left[0] == GotTerminate ==> |x.sent| == |contents|
    ensures left[0] == GotChat ==> Standing(x.(pc := HBody), h, contents, left[1..])
  {
    assert [left[0]] + left[1..] == left;
    BodiesOne(left[0]);
  }

  lemma ReadsBody(x: Handler, h: nat, contents: seq<seq<Byte>>, left: seq<Input>, text: seq<Byte>)
    requires Standing(x, h, contents, left) && x.pc == HBody && left != [] && left[0] == GotBody(text) && !x.sentTerm
    ensures var m := Chat(h, text);
            Standing(x.(pc := Queueing(m, QLock, ToRecv), sent := x.sent + [m]), h, contents, left[1..])
  {
    var n := |x.sent|;
    assert ([GotChat] + left)[2..] == left[1..];
    assert contents[n..][0] == text && contents[n..][1..] == contents[n + 1..];
    assert contents[..n + 1] == contents[..n] + [contents[n]];
    assert x.sent + [Chat(h, text)] == Chats(h, contents[..n + 1]);
  }

  lemma OwnReadStands(s: State, w: nat, input: Input, contents: nat -> seq<seq<Byte>>, left: nat -> seq<Input>)
    requires w < |s.hs| && Reads(s, H(w, input)) && Takes(s, H(w, input), left) && ChatTermination.PhaseOk(s.hs[w])
    requires s.hs[w].client.conn == w && StandingAt(s, w, contents, left)
    ensures var t := HStep(s, w, input); w < |t.hs| && StandingAt(t, w, contents, LeftAfter(s, H(w, input), left))
  {
    var x := s.hs[w];
    if input != Closed {
      if x.pc == HRecv { ReadsChat(x, w, contents(w), left(w)); }
      else if input.GotBody? { ReadsBody(x, w, contents(w), left(w), input.text); }
    }
  }

  lemma OwnOtherStands(s: State, w: nat, input: Input, contents: nat -> seq<seq<Byte>>, left: nat -> seq<Input>)
    requires HEnabled(s, w) && !Reads(s, H(w, input)) && StandingAt(s, w, contents, left)
    ensures var t := HStep(s, w, input); w < |t.hs| && StandingAt(t, w, contents, left)
  {
    OtherKeepsSent(s, w, input);
  }

  /** A step that reads nothing sends nothing, and only the end of `queue_message` leads back
      to reading. */
  lemma OtherKeepsSent(s: State, w: nat, input: Input)
    requires HEnabled(s, w) && !Reads(s, H(w, input))
    ensures var t := HStep(s, w, input);
            && w < |t.hs| && t.hs[w].sent == s.hs[w].sent && t.hs[w].sentTerm == s.hs[w].sentTerm
            && (AboutToRead(t.hs[w].pc) ==> AboutToRead(s.hs[w].pc)) && t.hs[w].pc != HBody
  {
    if s.hs[w].pc.Queueing? { QueueKeepsSent(s, w, input); }
    else if ChatRegistry.Removing(s.hs[w].pc) { RemovalKeepsSent(s, w, input); }
  }

  lemma QueueKeepsSent(s: State, w: nat, input: Input)
    requires HEnabled(s, w) && s.hs[w].pc.Queueing?
    ensures var t := HStep(s, w, input);
            && w < |t.hs| && t.hs[w].sent == s.hs[w].sent && t.hs[w].sentTerm == s.hs[w].sentTerm
            && (AboutToRead(t.hs[w].pc) ==> AboutToRead(s.hs[w].pc)) && t.hs[w].pc != HBody
  {
  }

  lemma RemovalKeepsSent(s: State, w: nat, input: Input)
    requires HEnabled(s, w) && ChatRegistry.Removing(s.hs[w].pc)
    ensures var t := HStep(s, w, input);
            && w < |t.hs| && t.hs[w].sent == s.hs[w].sent && t.hs[w].sentTerm == s.hs[w].sentTerm
            && !AboutToRead(t.hs[w].pc) && t.hs[w].pc != HBody
  {
  }

  lemma HKeepsFed(s: State, w: nat, input: Input, contents: nat -> seq<seq<Byte>>, left: nat -> seq<Input>)
    requires Inv(s) && FedInv(s, contents, left) && HEnabled(s, w) && Takes(s, H(w, input), left)
    ensures FedInv(HStep(s, w, input), contents, LeftAfter(s, H(w, input), left))
  {
    var t, left' := HStep(s, w, input), LeftAfter(s, H(w, input), left);
    ChatLocks.HandlerFrame(s, w, input);
    assert StandingAt(s, w, contents, left) && ChatRegistry.HandlerOk(s, w) && ChatTermination.PhaseOk(s.hs[w]);
    if Reads(s, H(w, input)) {
      OwnReadStands(s, w, input, contents, left);
    } else {
      OwnOtherStands(s, w, input, contents, left);
    }
    forall h: nat | h < |t.hs|
      ensures StandingAt(t, h, contents, left')
    {
      assert StandingAt(s, h, contents, left);
    }
  }

  lemma KeepsFed(s: State, x: Action, contents: nat -> seq<seq<Byte>>, left: nat -> seq<Input>)
    requires Inv(s) && FedInv(s, contents, left) && Enabled(s, x) && Takes(s, x, left)
    ensures FedInv(Next(s, x), contents, LeftAfter(s, x, left))
  {
    if x.H? {
      HKeepsFed(s, x.h, x.input, contents, left);
    } else {
      var t := Next(s, x);
      if x.B? { ChatLocks.BFrame(s); }
      if x.A? { ChatLocks.AFrame(s, x.fd); }
      forall h: nat | h < |t.hs|
        ensures StandingAt(t, h, contents, left)
      {
        if h < |s.hs| { assert StandingAt(s, h, contents, left); } else { assert contents(h)[0..] == contents(h); }
      }
    }
  }

  lemma {:induction false} FedRunKeeps(s: State, xs: seq<Action>, t: State, contents: nat -> seq<seq<Byte>>,
                                       left: nat -> seq<Input>)
    requires Inv(s) && FedInv(s, contents, left) && FedLeads(s, xs, t, left)
    ensures Inv(t) && Leads(s, xs, t)
    ensures forall h: nat :: h < |t.hs| ==> SentSoFar(t, h, contents)
    decreases |xs|
  {
    if xs == [] {
      forall h: nat | h < |t.hs| ensures SentSoFar(t, h, contents) { assert StandingAt(s, h, contents, left); }
    } else {
      KeepsInv(s, xs[0]);
      KeepsFed(s, xs[0], contents, left);
      FedRunKeeps(Next(s, xs[0]), xs[1..], t, contents, LeftAfter(s, xs[0], left));
    }
  }

  /** The handler has sent the first contents of its client, and all of them if the client
      asked to stop. */
  predicate SentSoFar(s: State, h: nat, contents: nat -> seq<seq<Byte>>)
    requires h < |s.hs|
  {
    && s.hs[h].sent <= Chats(h, contents(h))
    && (s.hs[h].sentTerm ==> s.hs[h].sent == Chats(h, contents(h)))
  }

  /** `s` is reached from the start while client `h` sends the bytes `streams(h)`, whatever
      they are. Any connection may break at any time. */
  ghost predicate ReachedOn(s: State, streams: nat -> seq<Byte>) {
    var left := StreamInputs(streams);
    exists s0, xs :: Initial(s0) && FedLeads(s0, xs, s, left)
  }

  function StreamInputs(streams: nat -> seq<Byte>): nat -> seq<Input> { (h: nat) => Inputs(streams(h)) }

  function StreamTexts(streams: nat -> seq<Byte>): nat -> seq<seq<Byte>> { (h: nat) => Texts(streams(h)) }

  /** Each handler has passed on the contents in its client's bytes, in order, up to some
      point, and all of them once it took the request to stop. */
  lemma SentIsTexts(s: State, streams: nat -> seq<Byte>)
    requires ReachedOn(s, streams)
    ensures Reachable(s)
    ensures forall h: nat :: h < |s.hs| ==> SentSoFar(s, h, StreamTexts(streams))
  {
    var left := StreamInputs(streams);
    var s0, xs :| Initial(s0) && FedLeads(s0, xs, s, left);
    InitialInv(s0);
    StartsFed(s0, streams);
    FedRunKeeps(s0, xs, s, StreamTexts(streams), left);
    assert Leads(s0, xs, s);
  }

  lemma StartsFed(s0: State, streams: nat -> seq<Byte>)
    requires s0.hs == []
    ensures FedInv(s0, StreamTexts(streams), StreamInputs(streams))
  {
    forall h: nat
      ensures InTurn(StreamInputs(streams)(h)) && Bodies(StreamInputs(streams)(h)) == StreamTexts(streams)(h)
    {
      InputsInTurn(streams(h));
    }
  }

  /** What a handler has sent, framed, is a first part of what it queues byte by byte. */
  lemma SentIsServed(s: State, streams: nat -> seq<Byte>, h: nat, from: Peer)
    requires ReachedOn(s, streams) && h < |s.hs|
    ensures |s.hs[h].sent| <= |Served(streams(h), from).0|
    ensures forall k :: 0 <= k < |s.hs[h].sent| ==>
              s.hs[h].sent[k].Chat? && Served(streams(h), from).0[k] == Frame(s.hs[h].sent[k].text + [NEWLINE], from)
    ensures s.hs[h].sentTerm ==> |s.hs[h].sent| == |Served(streams(h), from).0|
  {
    SentIsTexts(s, streams);
    InputsMatchBytes(streams(h), from);
    assert SentSoFar(s, h, StreamTexts(streams));
    var texts := Texts(streams(h));
    forall k | 0 <= k < |s.hs[h].sent|
      ensures s.hs[h].sent[k] == Chat(h, texts[k])
    {
      assert s.hs[h].sent[k] == Chats(h, texts)[k];
    }
  }

  /** For clients that send `contents` and then ask to stop, these are the contents. */
  lemma SentIsContents(s: State, streams: nat -> seq<Byte>, contents: nat -> seq<seq<Byte>>)
    requires ReachedOn(s, streams)
    requires forall h: nat :: AllContentsSendable(contents(h)) && streams(h) == Sent(contents(h)) + FAREWELL
    ensures forall h: nat :: h < |s.hs| ==> SentSoFar(s, h, contents)
  {
    SentIsTexts(s, streams);
    forall h: nat | h < |s.hs|
      ensures SentSoFar(s, h, contents)
    {
      assert SentSoFar(s, h, StreamTexts(streams));
      TextsOfSent(contents(h));
    }
  }

  // ---------------------------------------------------------------- what clients log

  lemma {:induction false} FromHas(ms: seq<Msg>, k: nat)
    requires k < |ms| && ms[k].Chat?
    ensures ms[k] in ChatDelivery.From(ms, ms[k].sender)
  {
    if k < |ms| - 1 { FromHas(ms[..|ms| - 1], k); }
  }

  /** The message is a content of the client it names. */
  predicate IsContent(m: Msg, contents: nat -> seq<seq<Byte>>, clients: nat) {
    m.Chat? && m.sender < clients && m.text in contents(m.sender)
  }

  lemma QueuedIsContent(s: State, contents: nat -> seq<seq<Byte>>, k: nat)
    requires k < |s.fl.queued| && s.fl.queued[k].Chat? && s.fl.queued[k].sender < |s.hs|
    requires ChatDelivery.SenderOk(s, s.fl.queued[k].sender) && SentSoFar(s, s.fl.queued[k].sender, contents)
    ensures IsContent(s.fl.queued[k], contents, |s.hs|)
  {
    var h := s.fl.queued[k].sender;
    FromHas(s.fl.queued, k);
    var passed := ChatDelivery.From(s.fl.queued, h);
    var j :| 0 <= j < |passed| && passed[j] == s.fl.queued[k];
    assert s.hs[h].sent[j] == passed[j];
    assert contents(h)[j] == s.fl.queued[k].text;
  }

  /** Everything broadcast is some client's content. */
  lemma LogIsContents(s: State, streams: nat -> seq<Byte>, k: nat)
    requires ReachedOn(s, streams)
    requires k < |s.fl.log| && s.fl.log[k].Chat?
    ensures IsContent(s.fl.log[k], StreamTexts(streams), |s.hs|) && Sendable(s.fl.log[k].text)
  {
    SentIsTexts(s, streams);
    ReachableInv(s);
    var h := s.fl.log[k].sender;
    assert s.fl.queued[k] == s.fl.log[k] && h < |s.hs|;
    assert ChatDelivery.SenderOk(s, h) && SentSoFar(s, h, StreamTexts(streams));
    QueuedIsContent(s, StreamTexts(streams), k);
    InputsMatchBytes(streams(h), PeerBytes([0, 0, 0, 0], [0, 0]));
  }

  /** What client `c` receives from client `h` is a contiguous part of what `h` sends. */
  lemma ReceivedInOrder(s: State, streams: nat -> seq<Byte>, c: nat, h: nat) returns (from: nat, to: nat)
    requires ReachedOn(s, streams)
    requires c < |s.ar.conns| && h < |s.hs|
    ensures from <= to <= |Texts(streams(h))|
    ensures ChatDelivery.From(s.ar.conns[c].delivered, h) == Chats(h, Texts(streams(h))[from..to])
  {
    SentIsTexts(s, streams);
    from, to := SenderOrder(s, c, h);
    assert SentSoFar(s, h, StreamTexts(streams));
    assert s.hs[h].sent[from..to] == Chats(h, Texts(streams(h))[from..to]);
  }

  /** With no more clients than expected, the finished log holds everything that every client
      which asked to stop has sent, in its order. */
  lemma LogIsComplete(s: State, streams: nat -> seq<Byte>, h: nat)
    requires ReachedOn(s, streams)
    requires |s.ar.conns| <= s.expected && Terminate in s.fl.log && h < |s.hs| && s.hs[h].sentTerm
    ensures ChatDelivery.From(s.fl.log, h) == Chats(h, Texts(streams(h)))
  {
    SentIsTexts(s, streams);
    ReachableInv(s);
    var k :| 0 <= k < |s.fl.log| && s.fl.log[k] == Terminate;
    assert s.fl.queued[k] == Terminate;
    TerminateIsLast(s);
    assert ChatDelivery.SenderOk(s, h) && SentSoFar(s, h, StreamTexts(streams)) && ChatTermination.PhaseOk(s.hs[h]);
  }

  /** `a` is a contiguous part of `b`. */
  ghost predicate PartOf(a: seq<Msg>, b: seq<Msg>) { exists i, j :: 0 <= i <= j <= |b| && a == b[i..j] }

  lemma LogIsSendable(s: State, streams: nat -> seq<Byte>)
    requires ReachedOn(s, streams)
    ensures AllSendable(s.fl.log)
  {
    forall k | 0 <= k < |s.fl.log| && s.fl.log[k].Chat?
      ensures Sendable(s.fl.log[k].text)
    {
      LogIsContents(s, streams, k);
    }
  }

  /** Without the terminate message, what a client received from `h` is part of what `h` sends. */
  lemma PartOfContents(s: State, streams: nat -> seq<Byte>, c: nat, h: nat, chats: seq<Msg>)
    requires ReachedOn(s, streams)
    requires c < |s.ar.conns| && h < |s.hs| && s.ar.conns[c].delivered == chats + [Terminate]
    ensures PartOf(ChatDelivery.From(chats, h), Chats(h, Texts(streams(h))))
  {
    var from, to := ReceivedInOrder(s, streams, c, h);
    ChatDelivery.FromAppend(chats, Terminate, h);
    assert Chats(h, Texts(streams(h))[from..to]) == Chats(h, Texts(streams(h)))[from..to];
  }

  predicate AreContents(chats: seq<Msg>, contents: nat -> seq<seq<Byte>>, clients: nat) {
    forall k :: 0 <= k < |chats| ==> chats[k].Chat? && IsContent(chats[k], contents, clients)
  }

  lemma LinesAreContents(s: State, streams: nat -> seq<Byte>, join: nat, chats: seq<Msg>)
    requires ReachedOn(s, streams) && join <= |s.fl.log|
    requires chats <= s.fl.log[join..] && forall k :: 0 <= k < |chats| ==> chats[k].Chat?
    ensures AreContents(chats, StreamTexts(streams), |s.hs|)
  {
    forall k | 0 <= k < |chats|
      ensures IsContent(chats[k], StreamTexts(streams), |s.hs|)
    {
      assert s.fl.log[join..][k] == s.fl.log[join + k];
      LogIsContents(s, streams, join + k);
    }
  }

  /** End to end, from the bytes of the clients to the log file: client `c`, which asked to
      stop and joined before the terminate message went out, logs one line for each chat
      message broadcast since, every line being a content of the client it names, and the
      lines of each client a contiguous part of its contents in its order. */
  lemma BytesToLogFile(s: State, streams: nat -> seq<Byte>, c: nat, peer: nat -> Peer) returns (chats: seq<Msg>)
    requires ReachedOn(s, streams)
    requires c < |s.hs| && s.hs[c].sentTerm && s.fl.termSent
    requires c < |s.ar.conns| && s.ar.conns[c].join < |s.fl.log|
    ensures s.fl.log[s.ar.conns[c].join..] == chats + [Terminate] && AreContents(chats, StreamTexts(streams), |s.hs|)
    ensures Received(WireOf(s.ar.conns[c].delivered, peer)) == (Lines(chats, peer), SawTerminate)
    ensures forall h: nat :: h < |s.hs| ==> PartOf(ChatDelivery.From(chats, h), Chats(h, Texts(streams(h))))
  {
    SentIsTexts(s, streams);
    LogIsSendable(s, streams);
    chats := LoggedChats(s, c, peer);
    LinesAreContents(s, streams, s.ar.conns[c].join, chats);
    forall h: nat | h < |s.hs|
      ensures PartOf(ChatDelivery.From(chats, h), Chats(h, Texts(streams(h))))
    {
      PartOfContents(s, streams, c, h, chats);
    }
  }

  lemma LoggedChats(s: State, c: nat, peer: nat -> Peer) returns (chats: seq<Msg>)
    requires Reachable(s) && AllSendable(s.fl.log) && c < |s.hs| && s.hs[c].sentTerm && s.fl.termSent
    requires c < |s.ar.conns| && s.ar.conns[c].join < |s.fl.log|
    ensures s.fl.log[s.ar.conns[c].join..] == chats + [Terminate] && s.ar.conns[c].delivered == chats + [Terminate]
    ensures forall k :: 0 <= k < |chats| ==> chats[k].Chat?
    ensures Received(WireOf(s.ar.conns[c].delivered, peer)) == (Lines(chats, peer), SawTerminate)
  {
    WholeStream(s, c);
    OnlyLast(s);
    chats := WindowChats(s.fl.log, s.ar.conns[c].join, peer);
  }

  lemma WindowChats(log: seq<Msg>, join: nat, peer: nat -> Peer) returns (chats: seq<Msg>)
    requires join < |log| && AllSendable(log) && log[|log| - 1] == Terminate
    requires forall k :: 0 <= k < |log| - 1 ==> log[k].Chat?
    ensures log[join..] == chats + [Terminate] && forall k :: 0 <= k < |chats| ==> chats[k].Chat?
    ensures Received(WireOf(log[join..], peer)) == (Lines(chats, peer), SawTerminate)
  {
    WindowParses(log, join, peer);
    chats := log[join..|log| - 1];
  }
}
