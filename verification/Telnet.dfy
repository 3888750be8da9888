/** The telnet client: a thread that turns input lines into messages, an unbounded channel, and a
    loop that polls the connection, answers option negotiation and forwards messages. The two run
    interleaved; a schedule is any sequence of their steps. */
module Telnet {
  import opened Outcomes

  type Byte = n: nat | n < 0x100
  type Buffer = seq<Byte>

  // ---------- Option negotiation ----------

  datatype Verb = Do | Dont | Will | Wont
  datatype Negotiation = Negotiation(verb: Verb, option: Byte)

  datatype Event =
    | Data(bytes: Buffer)
    | Negotiate(message: Negotiation)
    | Subnegotiation
    | NoData
    | UnknownCommand
    | Failure

  /** Every request is refused; refusals are not answered. */
  function Refusal(m: Negotiation): Option<Negotiation> {
    match m.verb
    case Do => Some(Negotiation(Wont, m.option))
    case Will => Some(Negotiation(Dont, m.option))
    case _ => None
  }

  function AsSeq<T>(x: Option<T>): seq<T> {
    if x.Some? then [x.value] else []
  }

  function ReplyTo(e: Event): seq<Negotiation> {
    if e.Negotiate? then AsSeq(Refusal(e.message)) else []
  }

  // ---------- Input lines ----------

  const CR: Byte := 0x0D
  const LF: Byte := 0x0A
  const QUIT: Buffer := [0x71, 0x75, 0x69, 0x74]
  const EXIT: Buffer := [0x65, 0x78, 0x69, 0x74]
  const SENTINEL: Buffer := []

  /** One attempt to read a line; a failed read counts as whatever text it left behind. */
  datatype Input = EndOfInput | Text(bytes: Buffer)

  /** Trailing carriage returns and line feeds removed, however many. */
  function Line(bytes: Buffer): Buffer {
    if bytes != [] && (bytes[|bytes| - 1] == CR || bytes[|bytes| - 1] == LF) then Line(bytes[..|bytes| - 1])
    else bytes
  }

  predicate Stops(i: Input) {
    i.EndOfInput? || Line(i.bytes) == QUIT || Line(i.bytes) == EXIT
  }

  function Message(i: Input): Buffer
    requires !Stops(i)
  {
    Line(i.bytes) + [CR, LF]
  }

  /** What the input thread sends for one input. */
  function Wire(i: Input): Buffer {
    if Stops(i) then SENTINEL else Message(i)
  }

  /** The messages for a whole session's input: one per line, up to the first stop. */
  function Messages(script: seq<Input>): seq<Buffer> {
    if script == [] || Stops(script[0]) then [] else [Message(script[0])] + Messages(script[1..])
  }

  // ---------- The two threads ----------

  /** `Stopping` has left its loop; `Gone` has dropped its end of the channel. */
  datatype Producer = Reading | Stopping | Gone

  datatype Reason = OnSentinel | OnDisconnect | OnFailure

  /** `Finished` has joined the other thread and dropped the receiver. */
  datatype Consumer = Polling | Receiving | Left(reason: Reason) | Finished(reason: Reason)

  datatype System = System(
    producer: Producer,
    consumer: Consumer,
    channel: seq<Buffer>,
    read: nat,
    written: seq<Buffer>,
    events: seq<Event>,
    replies: seq<Negotiation>)

  const INITIAL := System(Reading, Polling, [], 0, [], [], [])

  datatype Action = ReadLine | DropSender | Poll(event: Event) | Receive | Join

  /** One step of either thread; a step that is not enabled changes nothing. */
  function Step(script: seq<Input>, s: System, a: Action): System {
    match a
    case ReadLine =>
      if s.producer != Reading || s.read >= |script| then s
      else
        var i := script[s.read];
        var open := !s.consumer.Finished?;
        s.(read := s.read + 1,
           channel := if open then s.channel + [Wire(i)] else s.channel,
           producer := if Stops(i) || !open then Stopping else Reading)
    case DropSender =>
      if s.producer == Stopping then s.(producer := Gone) else s
    case Poll(e) =>
      if s.consumer != Polling then s
      else
        s.(events := s.events + [e],
           replies := s.replies + ReplyTo(e),
           consumer := if e.Failure? then Left(OnFailure) else Receiving)
    case Receive =>
      if s.consumer != Receiving then s
      else if s.channel != [] then
        var buffer := s.channel[0];
        if buffer == SENTINEL then s.(channel := s.channel[1..], consumer := Left(OnSentinel))
        else s.(channel := s.channel[1..], written := s.written + [buffer], consumer := Polling)
      else if s.producer == Gone then s.(consumer := Left(OnDisconnect))
      else s.(consumer := Polling)
    case Join =>
      if s.consumer.Left? && s.producer == Gone then s.(consumer := Finished(s.consumer.reason)) else s
  }

  function Run(script: seq<Input>, schedule: seq<Action>): System {
    if schedule == [] then INITIAL
    else Step(script, Run(script, schedule[..|schedule| - 1]), schedule[|schedule| - 1])
  }

  // ---------- What every step keeps ----------

  function Wires(inputs: seq<Input>): seq<Buffer> {
    seq(|inputs|, i requires 0 <= i < |inputs| => Wire(inputs[i]))
  }

  predicate HasLeft(s: System, r: Reason) {
    s.consumer == Left(r) || s.consumer == Finished(r)
  }

  /** What the loop has taken from the channel. */
  function Taken(s: System): seq<Buffer> {
    if HasLeft(s, OnSentinel) then s.written + [SENTINEL] else s.written
  }

  /** Everything sent is either written, queued, or the sentinel that ended the loop. */
  ghost predicate Invariant(script: seq<Input>, s: System) {
    && s.read <= |script|
    && Wires(script[..s.read]) == Taken(s) + s.channel
    && (forall i | 0 <= i < s.read :: Stops(script[i]) ==> i == s.read - 1)
    && (s.producer == Reading <==> (s.read > 0 ==> !Stops(script[s.read - 1])))
    && (s.consumer.Finished? ==> s.producer == Gone)
    && !HasLeft(s, OnDisconnect)
    && SENTINEL !in s.written
  }

  lemma WiresSnoc(script: seq<Input>, k: nat)
    requires k < |script|
    ensures Wires(script[..k + 1]) == Wires(script[..k]) + [Wire(script[k])]
  {
  }

  lemma WireIsSentinel(i: Input)
    ensures Wire(i) == SENTINEL <==> Stops(i)
  {
  }

  lemma ReadKeepsInvariant(script: seq<Input>, s: System)
    requires Invariant(script, s) && s.producer == Reading && s.read < |script|
    ensures Invariant(script, Step(script, s, ReadLine))
  {
    hide Wires, Wire, Stops;
    var t := Step(script, s, ReadLine);
    WiresSnoc(script, s.read);
    assert Taken(t) == Taken(s);
    assert Taken(s) + (s.channel + [Wire(script[s.read])]) == Taken(s) + s.channel + [Wire(script[s.read])];
  }

  /** Until the loop takes it, the sentinel of a stopped input thread is queued, and last. */
  lemma StopIsQueued(script: seq<Input>, s: System)
    requires Invariant(script, s) && s.producer != Reading && !HasLeft(s, OnSentinel)
    ensures s.channel != [] && s.channel[|s.channel| - 1] == SENTINEL
    ensures SENTINEL !in s.channel[..|s.channel| - 1]
  {
    var sent, w := Wires(script[..s.read]), |s.written|;
    WireIsSentinel(script[s.read - 1]);
    assert sent[s.read - 1] == SENTINEL && s.read == w + |s.channel|;
    assert s.channel == [] ==> s.written == sent;
    if s.channel != [] {
      forall k | 0 <= k < |s.channel| - 1
        ensures s.channel[k] != SENTINEL
      {
        assert sent[w + k] == s.channel[k];
        WireIsSentinel(script[w + k]);
      }
    }
  }

  lemma ReceiveKeepsInvariant(script: seq<Input>, s: System)
    requires Invariant(script, s) && s.consumer == Receiving
    ensures Invariant(script, Step(script, s, Receive))
  {
    hide Wires, Wire, Stops;
    var t := Step(script, s, Receive);
    if s.channel != [] {
      assert s.channel == [s.channel[0]] + s.channel[1..];
      assert Taken(t) == Taken(s) + [s.channel[0]];
      assert Taken(t) + t.channel == Taken(s) + s.channel;
    } else {
      assert Taken(s) + s.channel == s.written;
      assert Taken(t) + t.channel == t.written;
      if s.producer != Reading {
        StopIsQueued(script, s);
      }
    }
  }

  lemma StepKeepsInvariant(script: seq<Input>, s: System, a: Action)
    requires Invariant(script, s)
    ensures Invariant(script, Step(script, s, a))
  {
    hide Wires, Wire, Stops;
    var t := Step(script, s, a);
    match a
    case ReadLine =>
      if t != s {
        ReadKeepsInvariant(script, s);
      }
    case Receive =>
      if t != s {
        ReceiveKeepsInvariant(script, s);
      }
    case DropSender => assert Taken(t) + t.channel == Taken(s) + s.channel;
    case Poll(e) => assert Taken(t) + t.channel == Taken(s) + s.channel;
    case Join => assert Taken(t) + t.channel == Taken(s) + s.channel;
  }

  lemma {:induction false} RunKeepsInvariant(script: seq<Input>, schedule: seq<Action>)
    ensures Invariant(script, Run(script, schedule))
  {
    if schedule == [] {
      assert Wires(script[..0]) == [] + INITIAL.channel;
    } else {
      RunKeepsInvariant(script, schedule[..|schedule| - 1]);
      StepKeepsInvariant(script, Run(script, schedule[..|schedule| - 1]), schedule[|schedule| - 1]);
    }
  }

  // ---------- Delivery ----------

  function Payload(buffers: seq<Buffer>): seq<Buffer> {
    if buffers == [] then []
    else Payload(buffers[..|buffers| - 1]) + if buffers[|buffers| - 1] == SENTINEL then [] else [buffers[|buffers| - 1]]
  }

  lemma {:induction false} PayloadConcat(a: seq<Buffer>, b: seq<Buffer>)
    ensures Payload(a + b) == Payload(a) + Payload(b)
  {
    if b == [] {
      assert a + b == a;
    } else {
      assert (a + b)[..|a + b| - 1] == a + b[..|b| - 1];
      PayloadConcat(a, b[..|b| - 1]);
    }
  }

  lemma {:induction false} PayloadOfMessages(buffers: seq<Buffer>)
    requires SENTINEL !in buffers
    ensures Payload(buffers) == buffers
  {
    if buffers != [] {
      var n := |buffers| - 1;
      assert buffers == buffers[..n] + [buffers[n]];
      PayloadOfMessages(buffers[..n]);
    }
  }

  lemma {:induction false} MessagesSnoc(inputs: seq<Input>, i: Input)
    requires forall k | 0 <= k < |inputs| :: !Stops(inputs[k])
    ensures Messages(inputs + [i]) == Messages(inputs) + if Stops(i) then [] else [Message(i)]
  {
    if inputs == [] {
      assert inputs + [i] == [i] && [i][1..] == [];
    } else {
      assert (inputs + [i])[0] == inputs[0] && (inputs + [i])[1..] == inputs[1..] + [i];
      MessagesSnoc(inputs[1..], i);
    }
  }

  lemma WireIsMessage(i: Input)
    ensures !Stops(i) ==> Wire(i) == Message(i)
  {
  }

  lemma NoMessages()
    ensures Messages([]) == []
  {
  }

  /** While nothing but the last input stops, what is sent carries exactly the messages. */
  lemma {:induction false} PayloadOfWires(inputs: seq<Input>)
    requires forall k | 0 <= k < |inputs| - 1 :: !Stops(inputs[k])
    ensures Payload(Wires(inputs)) == Messages(inputs)
  {
    hide Wire, Stops, Message, Messages;
    NoMessages();
    if inputs != [] {
      var n := |inputs| - 1;
      PayloadOfWires(inputs[..n]);
      assert Wires(inputs)[..n] == Wires(inputs[..n]);
      WireIsSentinel(inputs[n]);
      WireIsMessage(inputs[n]);
      assert inputs == inputs[..n] + [inputs[n]];
      MessagesSnoc(inputs[..n], inputs[n]);
    }
  }

  lemma {:induction false} MessagesAfterStop(script: seq<Input>, k: nat)
    requires 0 < k <= |script| && Stops(script[k - 1])
    ensures Messages(script) == Messages(script[..k])
  {
    if !Stops(script[0]) {
      assert script[..k][1..] == script[1..][..k - 1];
      MessagesAfterStop(script[1..], k - 1);
    }
  }

  lemma {:induction false} MessagesPrefix(script: seq<Input>, k: nat)
    requires k <= |script|
    ensures Messages(script[..k]) <= Messages(script)
  {
    if k > 0 && !Stops(script[0]) {
      assert script[..k][1..] == script[1..][..k - 1];
      MessagesPrefix(script[1..], k - 1);
    }
  }

  /** In every interleaving, what was written followed by the messages still queued is exactly, in
      order, the messages of the lines read so far. */
  lemma Delivery(script: seq<Input>, schedule: seq<Action>)
    ensures var s := Run(script, schedule);
            s.read <= |script| && s.written + Payload(s.channel) == Messages(script[..s.read])
  {
    var s := Run(script, schedule);
    RunKeepsInvariant(script, schedule);
    PayloadOfWires(script[..s.read]);
    PayloadConcat(Taken(s), s.channel);
    PayloadOfMessages(s.written);
    if HasLeft(s, OnSentinel) {
      PayloadConcat(s.written, [SENTINEL]);
      assert [SENTINEL][..0] == [];
      assert s.written + [] == s.written;
    }
  }

  /** However the session ends, the server got a prefix of the user's messages; if it ended on the
      sentinel, the server got every line before the stop and nothing else. */
  lemma SessionOutput(script: seq<Input>, schedule: seq<Action>)
    ensures var s := Run(script, schedule);
            && s.written <= Messages(script)
            && (HasLeft(s, OnSentinel) ==> s.written == Messages(script) && s.channel == [])
  {
    var s := Run(script, schedule);
    Delivery(script, schedule);
    RunKeepsInvariant(script, schedule);
    MessagesPrefix(script, s.read);
    if HasLeft(s, OnSentinel) {
      SentinelIsLast(script, s);
      MessagesAfterStop(script, s.read);
      assert s.written + [] == s.written;
    }
  }

  lemma SentinelIsLast(script: seq<Input>, s: System)
    requires Invariant(script, s) && HasLeft(s, OnSentinel)
    ensures s.channel == [] && s.read > 0 && Stops(script[s.read - 1])
  {
    var k := |s.written|;
    assert (Taken(s) + s.channel)[k] == SENTINEL;
    assert Wires(script[..s.read])[k] == SENTINEL;
    WireIsSentinel(script[k]);
    assert |Wires(script[..s.read])| == s.read;
  }

  /** No schedule makes the loop see a disconnected channel, and the input thread leaves its own
      loop only on a stop, never because a send failed. */
  lemma NoDisconnect(script: seq<Input>, schedule: seq<Action>)
    ensures var s := Run(script, schedule);
            && !HasLeft(s, OnDisconnect)
            && (s.producer != Reading ==> 0 < s.read <= |script| && Stops(script[s.read - 1]))
  {
    RunKeepsInvariant(script, schedule);
  }

  // ---------- Messages and the sentinel ----------

  /** Every message ends its line and so differs from the sentinel; the trimmed line is what the
      user typed before the line break. */
  lemma MessageShape(i: Input)
    requires !Stops(i)
    ensures Message(i) != SENTINEL && Message(i)[|Message(i)| - 2..] == [CR, LF]
    ensures Message(i)[..|Message(i)| - 2] == Line(i.bytes) && Line(i.bytes) <= i.bytes
    ensures forall k | |Line(i.bytes)| <= k < |i.bytes| :: i.bytes[k] == CR || i.bytes[k] == LF
    ensures Line(i.bytes) != [] ==> Line(i.bytes)[|Line(i.bytes)| - 1] !in {CR, LF}
  {
    LineTrims(i.bytes);
  }

  lemma {:induction false} LineTrims(bytes: Buffer)
    ensures Line(bytes) <= bytes
    ensures forall k | |Line(bytes)| <= k < |bytes| :: bytes[k] == CR || bytes[k] == LF
    ensures Line(bytes) != [] ==> Line(bytes)[|Line(bytes)| - 1] !in {CR, LF}
    decreases |bytes|
  {
    if bytes != [] && (bytes[|bytes| - 1] == CR || bytes[|bytes| - 1] == LF) {
      LineTrims(bytes[..|bytes| - 1]);
    }
  }

  // ---------- What stops and what is sent, byte by byte ----------

  /** The lines `quit` and `exit` stop, with any line break behind them or none, and no other line. */
  lemma StopsExactly(bytes: Buffer)
    ensures Stops(EndOfInput)
    ensures Stops(Text(bytes)) <==>
            && |bytes| >= 4
            && (bytes[..4] == [113, 117, 105, 116] || bytes[..4] == [101, 120, 105, 116])
            && forall k | 4 <= k < |bytes| :: bytes[k] == 13 || bytes[k] == 10
  {
    LineTrims(bytes);
    if |bytes| >= 4 && forall k | 4 <= k < |bytes| :: bytes[k] == 13 || bytes[k] == 10 {
      if bytes[3] == 116 {
        LineOfTail(bytes, 4);
      }
    }
  }

  /** A line ends where only line breaks follow. */
  lemma {:induction false} LineOfTail(bytes: Buffer, n: nat)
    requires 0 < n <= |bytes| && bytes[n - 1] != 13 && bytes[n - 1] != 10
    requires forall k | n <= k < |bytes| :: bytes[k] == 13 || bytes[k] == 10
    ensures Line(bytes) == bytes[..n]
    decreases |bytes|
  {
    if n < |bytes| {
      var shorter := bytes[..|bytes| - 1];
      LineOfTail(shorter, n);
      assert shorter[..n] == bytes[..n];
    }
  }

  lemma {:induction false} MessagesExactly(script: seq<Input>, k: nat)
    requires k <= |script| && forall i | 0 <= i < k :: !Stops(script[i])
    requires k == |script| || Stops(script[k])
    ensures |Messages(script)| == k
    ensures forall i | 0 <= i < k :: Messages(script)[i] == Message(script[i])
  {
    hide Stops, Message;
    if k > 0 {
      MessagesExactly(script[1..], k - 1);
    }
  }

  /** The loop takes the sentinel only after the first line `quit` or `exit` or the end of the input,
      and then the server has got exactly the lines before it: each without the line breaks it ended
      in, with one carriage return and one line feed instead. */
  lemma SessionExactly(script: seq<Input>, schedule: seq<Action>)
    requires HasLeft(Run(script, schedule), OnSentinel)
    ensures var s := Run(script, schedule);
            var k := |s.written|;
            && k < |script|
            && (script[k].EndOfInput? ||
                (&& |script[k].bytes| >= 4
                 && (script[k].bytes[..4] == [113, 117, 105, 116] || script[k].bytes[..4] == [101, 120, 105, 116])
                 && forall j | 4 <= j < |script[k].bytes| :: script[k].bytes[j] == 13 || script[k].bytes[j] == 10))
            && (forall i | 0 <= i < k ::
                  var w := s.written[i];
                  && script[i].Text? && |w| >= 2 && w[|w| - 2..] == [13, 10]
                  && |w| - 2 <= |script[i].bytes| && w[..|w| - 2] == script[i].bytes[..|w| - 2]
                  && (|w| > 2 ==> w[|w| - 3] != 13 && w[|w| - 3] != 10)
                  && (forall j | |w| - 2 <= j < |script[i].bytes| ::
                        script[i].bytes[j] == 13 || script[i].bytes[j] == 10))
  {
    var s := Run(script, schedule);
    RunKeepsInvariant(script, schedule);
    SessionOutput(script, schedule);
    SentinelIsLast(script, s);
    var k := |s.written|;
    assert s.read == k + 1;
    MessagesExactly(script, k);
    StopAt(script[k]);
    forall i | 0 <= i < k
      ensures WrittenAs(script[i], s.written[i])
    {
      MessageWrittenAs(script[i]);
    }
  }

  lemma StopAt(i: Input)
    requires Stops(i)
    ensures i.EndOfInput? ||
            (&& |i.bytes| >= 4
             && (i.bytes[..4] == [113, 117, 105, 116] || i.bytes[..4] == [101, 120, 105, 116])
             && forall j | 4 <= j < |i.bytes| :: i.bytes[j] == 13 || i.bytes[j] == 10)
  {
    if i.Text? {
      StopsExactly(i.bytes);
    }
  }

  ghost predicate WrittenAs(i: Input, w: Buffer) {
    && i.Text? && |w| >= 2 && w[|w| - 2..] == [13, 10]
    && |w| - 2 <= |i.bytes| && w[..|w| - 2] == i.bytes[..|w| - 2]
    && (|w| > 2 ==> w[|w| - 3] != 13 && w[|w| - 3] != 10)
    && (forall j | |w| - 2 <= j < |i.bytes| :: i.bytes[j] == 13 || i.bytes[j] == 10)
  }

  lemma MessageWrittenAs(i: Input)
    requires !Stops(i)
    ensures WrittenAs(i, Message(i))
  {
    LineTrims(i.bytes);
  }

  // ---------- Leaving ----------

  /** A turn of the main loop in which the connection has nothing to say. */
  const QUIET_TURN := [Poll(NoData), Receive]

  function Turns(n: nat): seq<Action> {
    if n == 0 then [] else Turns(n - 1) + QUIET_TURN
  }

  lemma RunTwo(script: seq<Input>, schedule: seq<Action>, a: Action, b: Action)
    ensures Run(script, schedule + [a, b]) == Step(script, Step(script, Run(script, schedule), a), b)
  {
    hide Step;
    assert (schedule + [a, b])[..|schedule| + 1] == schedule + [a];
    assert (schedule + [a])[..|schedule|] == schedule;
  }

  lemma TurnForwards(script: seq<Input>, s: System)
    requires s.consumer == Polling && s.channel != [] && s.channel[0] != SENTINEL
    ensures var t := Step(script, Step(script, s, Poll(NoData)), Receive);
            t.consumer == Polling && t.channel == s.channel[1..] && t.read == s.read
  {
  }

  /** Quiet turns forward the queue one buffer at a time. */
  lemma {:induction false} TurnsForward(script: seq<Input>, schedule: seq<Action>, n: nat)
    requires Run(script, schedule).consumer == Polling
    requires n <= |Run(script, schedule).channel| && SENTINEL !in Run(script, schedule).channel[..n]
    ensures Run(script, schedule + Turns(n)).consumer == Polling
    ensures Run(script, schedule + Turns(n)).channel == Run(script, schedule).channel[n..]
    ensures Run(script, schedule + Turns(n)).read == Run(script, schedule).read
  {
    if n == 0 {
      assert schedule + Turns(0) == schedule;
    } else {
      hide Run, Step, Turns;
      var s := Run(script, schedule);
      assert s.channel[..n] == s.channel[..n - 1] + [s.channel[n - 1]];
      TurnsForward(script, schedule, n - 1);
      TurnsSnoc(schedule, n);
      TurnForwards(script, Run(script, schedule + Turns(n - 1)));
      RunTwo(script, schedule + Turns(n - 1), Poll(NoData), Receive);
    }
  }

  lemma TurnTakesSentinel(script: seq<Input>, s: System)
    requires s.consumer == Polling && s.channel != [] && s.channel[0] == SENTINEL
    ensures Step(script, Step(script, s, Poll(NoData)), Receive).consumer == Left(OnSentinel)
  {
  }

  lemma TurnsSnoc(schedule: seq<Action>, n: nat)
    requires n > 0
    ensures schedule + Turns(n) == schedule + Turns(n - 1) + QUIET_TURN
  {
  }

  /** Once the user has stopped, a loop that is still polling leaves within as many quiet turns as
      there are queued buffers, with every message delivered. */
  lemma QuietTurnsEndTheSession(script: seq<Input>, schedule: seq<Action>)
    requires Run(script, schedule).consumer == Polling && Run(script, schedule).producer != Reading
    ensures var n := |Run(script, schedule).channel|;
            var s := Run(script, schedule + Turns(n));
            n > 0 && s.consumer == Left(OnSentinel) && s.written == Messages(script)
  {
    hide Invariant, Messages, Step, Run, Turns;
    var n := |Run(script, schedule).channel|;
    RunKeepsInvariant(script, schedule);
    StopIsQueued(script, Run(script, schedule));
    TurnsForward(script, schedule, n - 1);
    TurnsSnoc(schedule, n);
    TurnTakesSentinel(script, Run(script, schedule + Turns(n - 1)));
    RunTwo(script, schedule + Turns(n - 1), Poll(NoData), Receive);
    SessionOutput(script, schedule + Turns(n));
  }

  // ---------- Leaving under any schedule ----------

  predicate IsActive(s: System) {
    s.consumer == Polling || s.consumer == Receiving
  }

  /** How many times the loop looks into the channel while these actions follow the schedule. */
  function Receives(script: seq<Input>, schedule: seq<Action>, more: seq<Action>): nat {
    if more == [] then 0
    else
      var before := more[..|more| - 1];
      Receives(script, schedule, before) +
      if more[|more| - 1] == Receive && Run(script, schedule + before).consumer == Receiving then 1 else 0
  }

  /** A loop whose user has stopped and which is active or has left on the sentinel: it has left
      exactly if the channel is empty. */
  predicate IsDraining(s: System) {
    && s.producer != Reading
    && (IsActive(s) || HasLeft(s, OnSentinel))
    && (HasLeft(s, OnSentinel) <==> s.channel == [])
  }

  lemma StopIsDraining(script: seq<Input>, s: System)
    requires Invariant(script, s) && s.producer != Reading && IsActive(s)
    ensures IsDraining(s)
  {
    StopIsQueued(script, s);
  }

  /** Each look into the channel takes one buffer, and no other step adds or takes any. */
  lemma StepDrains(script: seq<Input>, s: System, a: Action)
    requires Invariant(script, s) && IsDraining(s) && a != Poll(Failure)
    ensures IsDraining(Step(script, s, a))
    ensures |Step(script, s, a).channel| == |s.channel| - if a == Receive && s.consumer == Receiving then 1 else 0
  {
    hide Invariant;
    if IsActive(s) {
      StopIsQueued(script, s);
      assert |s.channel| > 1 ==> s.channel[0] in s.channel[..|s.channel| - 1];
    }
  }

  lemma RunSnoc(script: seq<Input>, schedule: seq<Action>, before: seq<Action>, a: Action)
    ensures Run(script, schedule + (before + [a])) == Step(script, Run(script, schedule + before), a)
  {
    assert schedule + (before + [a]) == schedule + before + [a];
  }

  lemma {:induction false} StopDrains(script: seq<Input>, schedule: seq<Action>, more: seq<Action>)
    requires IsDraining(Run(script, schedule)) && Poll(Failure) !in more
    ensures IsDraining(Run(script, schedule + more))
    ensures |Run(script, schedule + more).channel| + Receives(script, schedule, more) == |Run(script, schedule).channel|
  {
    hide Run, Step, IsDraining, Invariant;
    if more == [] {
      assert schedule + more == schedule;
    } else {
      var before, a := more[..|more| - 1], more[|more| - 1];
      assert more == before + [a];
      StopDrains(script, schedule, before);
      RunKeepsInvariant(script, schedule + before);
      StepDrains(script, Run(script, schedule + before), a);
      RunSnoc(script, schedule, before, a);
    }
  }

  /** Once the user has stopped, then whatever the two threads and the connection do, short of a
      failure, the loop leaves with the look that takes the last queued buffer, not before and not
      later, and with every message delivered. */
  lemma StopEndsTheSession(script: seq<Input>, schedule: seq<Action>, more: seq<Action>)
    requires Run(script, schedule).producer != Reading && IsActive(Run(script, schedule))
    requires Poll(Failure) !in more
    ensures var n := |Run(script, schedule).channel|;
            var s := Run(script, schedule + more);
            && 0 < n && Receives(script, schedule, more) <= n
            && (HasLeft(s, OnSentinel) <==> Receives(script, schedule, more) == n)
            && (HasLeft(s, OnSentinel) ==> s.written == Messages(script))
  {
    hide Run, Step, Invariant, Receives, Messages;
    RunKeepsInvariant(script, schedule);
    StopIsDraining(script, Run(script, schedule));
    StopDrains(script, schedule, more);
    SessionOutput(script, schedule + more);
  }

  // ---------- After leaving ----------

  predicate HasLeftAtAll(s: System) {
    s.consumer.Left? || s.consumer.Finished?
  }

  /** Once the loop has left, on a failure or otherwise, it stays out for the same reason and nothing
      more is written or answered, whatever is typed. */
  lemma {:induction false} NothingAfterLeaving(script: seq<Input>, schedule: seq<Action>, more: seq<Action>)
    requires HasLeftAtAll(Run(script, schedule))
    ensures var s, t := Run(script, schedule), Run(script, schedule + more);
            && HasLeftAtAll(t) && t.consumer.reason == s.consumer.reason
            && t.written == s.written && t.replies == s.replies
  {
    hide Run;
    if more == [] {
      assert schedule + more == schedule;
    } else {
      var before, a := more[..|more| - 1], more[|more| - 1];
      assert more == before + [a];
      NothingAfterLeaving(script, schedule, before);
      RunSnoc(script, schedule, before, a);
    }
  }

  /** The loop leaves in one step exactly by a failure of the connection, by taking an empty buffer,
      or by finding the channel empty and its sender gone. */
  lemma LeavingExactly(script: seq<Input>, s: System, a: Action)
    requires !HasLeftAtAll(s)
    ensures var t := Step(script, s, a);
            && (t.consumer == Left(OnFailure) <==> s.consumer == Polling && a == Poll(Failure))
            && (t.consumer == Left(OnSentinel) <==>
                s.consumer == Receiving && a == Receive && s.channel != [] && s.channel[0] == [])
            && (t.consumer == Left(OnDisconnect) <==>
                s.consumer == Receiving && a == Receive && s.channel == [] && s.producer == Gone)
            && !t.consumer.Finished?
  {
  }

  /** Once the loop has left and the user has stopped, dropping the sender and joining end the
      session, for the reason the loop left. */
  lemma LeftIsJoined(script: seq<Input>, schedule: seq<Action>)
    requires Run(script, schedule).consumer.Left? && Run(script, schedule).producer != Reading
    ensures Run(script, schedule + [DropSender, Join]).consumer == Finished(Run(script, schedule).consumer.reason)
  {
    RunTwo(script, schedule, DropSender, Join);
  }

  /** The session ends only after an input that stops, even when the connection has failed. */
  lemma FinishNeedsStop(script: seq<Input>, schedule: seq<Action>)
    requires Run(script, schedule).consumer.Finished?
    ensures var s := Run(script, schedule);
            && 0 < s.read <= |script| && Stops(script[s.read - 1])
            && s.consumer.reason != OnDisconnect
  {
    RunKeepsInvariant(script, schedule);
    var s := Run(script, schedule);
    assert s.consumer == Finished(s.consumer.reason);
  }

  // ---------- Replies ----------

  function RepliesTo(events: seq<Event>): seq<Negotiation> {
    if events == [] then [] else RepliesTo(events[..|events| - 1]) + ReplyTo(events[|events| - 1])
  }

  /** In every run the replies sent are, one for one and in order, the refusals of the requests
      received. */
  lemma {:induction false} RepliesMatch(script: seq<Input>, schedule: seq<Action>)
    ensures Run(script, schedule).replies == RepliesTo(Run(script, schedule).events)
  {
    hide ReplyTo, Wire, Stops;
    if schedule != [] {
      var before, a := schedule[..|schedule| - 1], schedule[|schedule| - 1];
      RepliesMatch(script, before);
      var s := Run(script, before);
      if a.Poll? && s.consumer == Polling {
        assert (s.events + [a.event])[..|s.events|] == s.events;
      }
    }
  }

  function Requests(events: seq<Event>): seq<Negotiation> {
    if events == [] then []
    else
      var before, last := events[..|events| - 1], events[|events| - 1];
      Requests(before) + if last.Negotiate? && last.message.verb in {Do, Will} then [last.message] else []
  }

  /** The k-th reply refuses the k-th request, for the same option; a refusal received is never
      answered. */
  lemma {:induction false} RepliesRefuse(events: seq<Event>)
    ensures |RepliesTo(events)| == |Requests(events)|
    ensures forall k | 0 <= k < |Requests(events)| ::
              var reply, request := RepliesTo(events)[k], Requests(events)[k];
              reply == Negotiation(if request.verb == Do then Wont else Dont, request.option)
  {
    if events != [] {
      RepliesRefuse(events[..|events| - 1]);
    }
  }
}
