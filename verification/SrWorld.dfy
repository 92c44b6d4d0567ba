/** Two SR endpoints joined by one lossy link per direction, and their runs.

  The redundancy layer neither reorders nor duplicates, so a link is a queue
  from which any packet may be lost. Messages are opaque to the SR layer: the
  endpoint functions are generic in the message type. Here each message is
  stamped with its submission rank, so that equal contents stay apart.
*/
module SrWorld {
  import opened SrEndpoint

  datatype Stamped<T> = Stamped(rank: nat, body: T)

  /** History of one direction: every message given to sr_send, every message
      the receiving buffer accepted, and the rank after the last message
      passed to that buffer. */
  datatype Ledger<T> = Ledger(submitted: seq<T>, handed: seq<Stamped<T>>, top: nat)

  datatype Side = A | B

  datatype Action<T> =
    | Submitting(bodies: seq<T>)
    | Sending
    | Beating(expired: bool, due: bool)
    | Disconnecting
    | Receiving(ctsInSeq: bool)
    | Fetching

  datatype Event<T> = Loss(onLinkFrom: Side, index: nat) | Act(side: Side, action: Action<T>)

  /** One endpoint with what it can see: its incoming and outgoing link, the
      ledger of what it submits and the ledger of what it hands up. */
  datatype View<T> = View(
    me: Endpoint<Stamped<T>>, inc: seq<Packet<Stamped<T>>>, out: seq<Packet<Stamped<T>>>,
    mine: Ledger<T>, theirs: Ledger<T>)

  datatype World<T> = World(
    a: Endpoint<Stamped<T>>, b: Endpoint<Stamped<T>>,
    ab: seq<Packet<Stamped<T>>>, ba: seq<Packet<Stamped<T>>>,
    fromA: Ledger<T>, fromB: Ledger<T>)

  function Stamp<T>(bodies: seq<T>, first: nat): (r: seq<Stamped<T>>) {
    seq(|bodies|, i requires 0 <= i < |bodies| => Stamped(first + i, bodies[i]))
  }

  /** The rank that follows the last message of a batch. */
  function TopAfter<T>(msgs: seq<Stamped<T>>, top: nat): nat {
    if msgs == [] then top else msgs[|msgs| - 1].rank + 1
  }

  function Absorb<T>(v: View<T>, o: Outcome<Stamped<T>>): View<T> {
    var accepted := if |v.me.app| <= |o.e.app| then o.e.app[|v.me.app|..] else [];
    v.(me := o.e, out := v.out + o.out,
       theirs := v.theirs.(handed := v.theirs.handed + accepted, top := TopAfter(o.up, v.theirs.top)))
  }

  function Performed<T>(v: View<T>, act: Action<T>, a: Arith): Outcome<Stamped<T>> {
    match act
    case Submitting(bodies) => Submit(v.me, Stamp(bodies, |v.mine.submitted|))
    case Sending => SendStep(v.me, a)
    case Beating(expired, due) => HeartbeatStep(v.me, expired, due, a)
    case Disconnecting => Disconnect(v.me)
    case Receiving(cts) => if v.inc == [] then Start(v.me) else Receive(v.me, v.inc[0], cts, a)
    case Fetching => Start(Fetch(v.me).e)
  }

  function ActOn<T>(v: View<T>, act: Action<T>, a: Arith): View<T> {
    var v1 := Absorb(v, Performed(v, act, a));
    match act
    case Submitting(bodies) => v1.(mine := v1.mine.(submitted := v1.mine.submitted + bodies))
    case Receiving(_) => if v.inc == [] then v1 else v1.(inc := v1.inc[1..])
    case _ => v1
  }

  function ViewOf<T>(w: World<T>, s: Side): View<T> {
    if s.A? then View(w.a, w.ba, w.ab, w.fromA, w.fromB)
    else View(w.b, w.ab, w.ba, w.fromB, w.fromA)
  }

  function Update<T>(w: World<T>, s: Side, v: View<T>): World<T> {
    if s.A? then World(v.me, w.b, v.out, v.inc, v.mine, v.theirs)
    else World(w.a, v.me, v.inc, v.out, v.theirs, v.mine)
  }

  function Without<X>(q: seq<X>, i: nat): seq<X> {
    if i < |q| then q[..i] + q[i + 1..] else q
  }

  function Step<T>(w: World<T>, ev: Event<T>, a: Arith): World<T> {
    match ev
    case Loss(s, i) =>
      if s.A? then w.(ab := Without(w.ab, i)) else w.(ba := Without(w.ba, i))
    case Act(s, act) => Update(w, s, ActOn(ViewOf(w, s), act, a))
  }

  function Run<T>(w: World<T>, evs: seq<Event<T>>, a: Arith): World<T>
    decreases |evs|
  {
    if evs == [] then w else Step(Run(w, evs[..|evs| - 1], a), evs[|evs| - 1], a)
  }

  /** The state right after the handshake of a client whose connection request
      carried x and a server whose response carried y. */
  function Established<T>(client: Config, server: Config, x: int, y: int, a: Arith): World<T> {
    World(
      Endpoint(client, Up, true, Norm(x + 2, a), Norm(y + 1, a), y, x, [], [], []),
      Endpoint(server, Up, true, Norm(y + 1, a), Norm(x + 2, a), Norm(x + 1, a), y, [], [], []),
      [], [], Ledger([], [], 0), Ledger([], [], 0))
  }

  function Bodies<T>(ms: seq<Stamped<T>>): seq<T> {
    seq(|ms|, i requires 0 <= i < |ms| => ms[i].body)
  }

  /** xs is obtained from ys by deleting elements: positions pos pick xs, in order. */
  ghost predicate PicksFrom<T>(pos: seq<nat>, xs: seq<T>, ys: seq<T>) {
    && |pos| == |xs|
    && (forall i :: 0 <= i < |pos| ==> pos[i] < |ys| && xs[i] == ys[pos[i]])
    && (forall i, j :: 0 <= i < j < |pos| ==> pos[i] < pos[j])
  }

  ghost predicate IsSubsequence<T(!new)>(xs: seq<T>, ys: seq<T>) {
    exists pos: seq<nat> :: PicksFrom(pos, xs, ys)
  }
}
