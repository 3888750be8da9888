/** The two telnet loops as they run: one method for a pass of the input thread, two for the parts
    of a pass of the main loop between which the input thread may run. */
module TelnetSession {
  import opened Telnet

  class Session {
    const script: seq<Input>
    var input: Buffer
    var read: nat
    var producer: Producer
    var consumer: Consumer
    var channel: seq<Buffer>
    var written: seq<Buffer>
    var events: seq<Event>
    var replies: seq<Negotiation>

    ghost function View(): System
      reads this
    {
      System(producer, consumer, channel, read, written, events, replies)
    }

    constructor (script: seq<Input>)
      ensures this.script == script && View() == INITIAL
    {
      this.script := script;
      input, read, producer, consumer := [], 0, Reading, Polling;
      channel, written, events, replies := [], [], [], [];
    }

    /** Sending fails only once the receiver is gone. */
    method Send(buffer: Buffer) returns (ok: bool)
      modifies this`channel
      ensures ok == !consumer.Finished?
      ensures channel == if ok then old(channel) + [buffer] else old(channel)
    {
      ok := !consumer.Finished?;
      if ok {
        channel := channel + [buffer];
      }
    }

    method InputPass()
      requires producer == Reading && read < |script|
      modifies this
      ensures View() == Step(script, old(View()), ReadLine)
    {
      input := [];
      var result := script[read];
      read := read + 1;
      if result.EndOfInput? {
        var _ := Send(SENTINEL);
        producer := Stopping;
        return;
      }
      input := result.bytes;
      var line := Line(input);
      if line == QUIT || line == EXIT {
        var _ := Send(SENTINEL);
        producer := Stopping;
        return;
      }
      var buffer := line;
      buffer := buffer + [CR, LF];
      var ok := Send(buffer);
      if !ok {
        producer := Stopping;
      }
    }

    method InputExit()
      requires producer == Stopping
      modifies this
      ensures View() == Step(script, old(View()), DropSender)
    {
      producer := Gone;
    }

    method PollPass(event: Event)
      requires consumer == Polling
      modifies this
      ensures View() == Step(script, old(View()), Poll(event))
    {
      events := events + [event];
      consumer := Receiving;
      match event {
        case Negotiate(m) =>
          match m.verb {
            case Do => replies := replies + [Negotiation(Wont, m.option)];
            case Will => replies := replies + [Negotiation(Telnet.Dont, m.option)];
            case _ =>
          }
        case Failure => consumer := Left(OnFailure);
        case _ =>
      }
    }

    method ReceivePass()
      requires consumer == Receiving
      modifies this
      ensures View() == Step(script, old(View()), Receive)
    {
      if channel != [] {
        var buffer := channel[0];
        channel := channel[1..];
        if buffer == [] {
          consumer := Left(OnSentinel);
          return;
        }
        written := written + [buffer];
      } else if producer == Gone {
        consumer := Left(OnDisconnect);
        return;
      }
      consumer := Polling;
    }

    method JoinInput()
      requires consumer.Left? && producer == Gone
      modifies this
      ensures View() == Step(script, old(View()), Join)
    {
      consumer := Finished(consumer.reason);
    }
  }
}
