/** Two endpoints that both refuse every option cannot answer each other forever, as the General
    Considerations of RFC 854 require of negotiation. */
module NegotiationLoop {
  import opened Telnet

  datatype Side = ToLeft | ToRight

  /** The messages in flight towards each endpoint, oldest first. */
  datatype Link = Link(toLeft: seq<Negotiation>, toRight: seq<Negotiation>)

  predicate CanDeliver(l: Link, side: Side) {
    if side == ToLeft then l.toLeft != [] else l.toRight != []
  }

  /** The endpoint takes its oldest message and sends its refusal, if any, to the other side. */
  function Deliver(l: Link, side: Side): Link {
    if !CanDeliver(l, side) then l
    else if side == ToLeft then Link(l.toLeft[1..], l.toRight + AsSeq(Refusal(l.toLeft[0])))
    else Link(l.toLeft + AsSeq(Refusal(l.toRight[0])), l.toRight[1..])
  }

  function Exchange(l: Link, order: seq<Side>): Link
    decreases |order|
  {
    if order == [] then l else Exchange(Deliver(l, order[0]), order[1..])
  }

  /** How many of the attempted deliveries found a message. */
  function Delivered(l: Link, order: seq<Side>): nat
    decreases |order|
  {
    if order == [] then 0
    else (if CanDeliver(l, order[0]) then 1 else 0) + Delivered(Deliver(l, order[0]), order[1..])
  }

  /** A request costs two deliveries, its own and its refusal's; a refusal costs one. */
  function Weight(m: Negotiation): nat {
    if m.verb == Do || m.verb == Will then 2 else 1
  }

  function Load(ms: seq<Negotiation>): nat {
    if ms == [] then 0 else Weight(ms[0]) + Load(ms[1..])
  }

  function LinkLoad(l: Link): nat {
    Load(l.toLeft) + Load(l.toRight)
  }

  predicate IsQuiet(l: Link) {
    l.toLeft == [] && l.toRight == []
  }

  lemma {:induction false} LoadConcat(a: seq<Negotiation>, b: seq<Negotiation>)
    ensures Load(a + b) == Load(a) + Load(b)
  {
    if a == [] {
      assert a + b == b;
    } else {
      assert (a + b)[0] == a[0] && (a + b)[1..] == a[1..] + b;
      LoadConcat(a[1..], b);
    }
  }

  lemma DeliveryCostsOne(l: Link, side: Side)
    requires CanDeliver(l, side)
    ensures LinkLoad(Deliver(l, side)) == LinkLoad(l) - 1
  {
    var m := if side == ToLeft then l.toLeft[0] else l.toRight[0];
    var reply := AsSeq(Refusal(m));
    LoadConcat(if side == ToLeft then l.toRight else l.toLeft, reply);
    assert reply != [] ==> reply[1..] == [];
  }

  /** In any order of deliveries, what has been delivered and what is left always add up to the
      initial load: the exchange is finite, and it is quiet after exactly that many deliveries. */
  lemma {:induction false} NegotiationTerminates(l: Link, order: seq<Side>)
    ensures Delivered(l, order) + LinkLoad(Exchange(l, order)) == LinkLoad(l)
    ensures IsQuiet(Exchange(l, order)) <==> Delivered(l, order) == LinkLoad(l)
    decreases |order|
  {
    if order != [] {
      if CanDeliver(l, order[0]) {
        DeliveryCostsOne(l, order[0]);
      }
      NegotiationTerminates(Deliver(l, order[0]), order[1..]);
    }
  }
}
