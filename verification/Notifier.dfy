/**
 Subscriptions to value changes. A registration is queued, the query it names is executed, and whatever
 notifier is raised next is attached to the oldest queued registration. The steps are functions on the
 server's state; the server object performs them in place.
 */
module Notifier {

  type Peer = int
  type Source = int

  /** The id is kept in 16 bits. */
  type Id = i: nat | i < 0x1_0000

  datatype Sub = Sub(peer: Peer, client: string, id: Id)
  datatype Active = Active(sub: Sub, source: Source)

  /** A notification, in the old style for clients without an id. */
  datatype Message = Raw(peer: Peer, id: nat) | Framed(peer: Peer, client: string, id: nat)

  /** `live` counts the handler connections of each notifier, `hooks` the close handlers of each peer.
      The last four fields are history: registrations acknowledged, notifiers attached, entries removed,
      messages sent. `broken` notes that the queue was popped while empty. */
  datatype Server = Server(pending: seq<Sub>, active: seq<Active>, live: multiset<Source>, hooks: multiset<Peer>,
                           broken: bool, accepted: seq<Sub>, taken: seq<Active>, removed: multiset<Active>,
                           sent: seq<Message>)

  const EMPTY := Server([], [], multiset{}, multiset{}, false, [], [], multiset{}, [])

  // ---------------------------------------------------------------- steps

  /** A raised notifier: its connections are dropped, then one is made, and the oldest waiting
      registration is attached to it. Nothing happens when none waits. */
  function Establish(s: Server, n: Source): Server
  {
    if s.pending == [] then s
    else
      var a := Active(s.pending[0], n);
      s.(live := s.live[n := 0] + multiset{n}, pending := s.pending[1..], active := s.active + [a],
         taken := s.taken + [a])
  }

  function EstablishAll(s: Server, raised: seq<Source>): Server
  {
    if raised == [] then s else Establish(EstablishAll(s, raised[..|raised| - 1]), raised[|raised| - 1])
  }

  function SubOf(peer: Peer, client: string, id: int): Sub
  {
    Sub(peer, client, id % 0x1_0000)
  }

  function Queued(s: Server, sub: Sub): Server
  {
    s.(hooks := s.hooks + multiset{sub.peer}, pending := s.pending + [sub])
  }

  /** After the query: acknowledged, or the last waiting registration is dropped again. */
  function Settled(t: Server, sub: Sub, ok: bool): Server
  {
    if ok then t.(accepted := t.accepted + [sub])
    else if t.pending == [] then t.(broken := true)
    else t.(pending := t.pending[..|t.pending| - 1])
  }

  /** `found` says that the query exists, `raised` which notifiers its execution raises, `ok` what the
      execution returns. */
  function Register(s: Server, sub: Sub, found: bool, raised: seq<Source>, ok: bool): Server
  {
    if found then Settled(EstablishAll(Queued(s, sub), raised), sub, ok) else s
  }

  predicate Matches(a: Active, peer: Peer, client: string)
  {
    a.sub.peer == peer && (client == "" || a.sub.client == "" || a.sub.client == client)
  }

  /** The entries that do not match, in their order. */
  function Without(active: seq<Active>, peer: Peer, client: string): (r: seq<Active>)
    ensures |r| <= |active|
  {
    if active == [] then []
    else
      var m := |active| - 1;
      Without(active[..m], peer, client) + if Matches(active[m], peer, client) then [] else [active[m]]
  }

  /** The backward loop with `left` entries still to visit: those stay put, behind them all is done. */
  ghost predicate Removing(all: seq<Active>, list: seq<Active>, left: nat, peer: Peer, client: string)
  {
    && left <= |all| && left <= |list|
    && list[..left] == all[..left]
    && Without(all[..left], peer, client) + list[left..] == Without(all, peer, client)
  }

  lemma RemovingStarts(all: seq<Active>, peer: Peer, client: string)
    ensures Removing(all, all, |all|, peer, client)
  {
    assert all[..|all|] == all;
  }

  lemma RemovingStep(all: seq<Active>, list: seq<Active>, i: nat, peer: Peer, client: string)
    requires Removing(all, list, i + 1, peer, client)
    ensures Removing(all, if Matches(list[i], peer, client) then list[..i] + list[i + 1..] else list, i, peer, client)
  {
    assert list[i] == list[..i + 1][i] == all[..i + 1][i];
    assert all[..i + 1][..i] == all[..i] && list[..i + 1][..i] == list[..i];
    if Matches(list[i], peer, client) {
      assert (list[..i] + list[i + 1..])[i..] == list[i + 1..];
    } else {
      assert list[i..] == [list[i]] + list[i + 1..];
    }
  }

  lemma RemovingEnds(all: seq<Active>, list: seq<Active>, peer: Peer, client: string)
    requires Removing(all, list, 0, peer, client)
    ensures list == Without(all, peer, client)
  {
    assert all[..0] == [] && list[0..] == list;
  }

  function Unregister(s: Server, peer: Peer, client: string): Server
  {
    var rest := Without(s.active, peer, client);
    s.(active := rest, removed := s.removed + (multiset(s.active) - multiset(rest)))
  }

  /** Every close handler of the peer runs, one per registration it ever made. */
  function CloseTimes(s: Server, peer: Peer, times: nat): Server
  {
    if times == 0 then s else Unregister(CloseTimes(s, peer, times - 1), peer, "")
  }

  function Closed(s: Server, peer: Peer): Server { CloseTimes(s, peer, s.hooks[peer]) }

  function MessageTo(sub: Sub): Message
  {
    if sub.client == "" then Raw(sub.peer, sub.id) else Framed(sub.peer, sub.client, sub.id)
  }

  /** One message per entry of this notifier, in order of registration. */
  function FanOut(active: seq<Active>, n: Source): seq<Message>
  {
    if active == [] then []
    else
      var m := |active| - 1;
      FanOut(active[..m], n) + if active[m].source == n then [MessageTo(active[m].sub)] else []
  }

  function HandleTimes(s: Server, n: Source, times: nat): Server
  {
    if times == 0 then s
    else
      var t := HandleTimes(s, n, times - 1);
      t.(sent := t.sent + FanOut(t.active, n))
  }

  /** A value change runs the handler once per live connection. */
  function Changed(s: Server, n: Source): Server { HandleTimes(s, n, s.live[n]) }

  // ---------------------------------------------------------------- events

  /** What happens to the server; an unregistration is `bare` when it comes without parameters. */
  datatype Event =
    | Registration(sub: Sub, found: bool, raised: seq<Source>, ok: bool)
    | Query(raised: seq<Source>)
    | Unregistration(peer: Peer, client: string, bare: bool)
    | Close(peer: Peer)
    | Change(source: Source)

  function Step(s: Server, e: Event): Server
  {
    match e
    case Registration(sub, found, raised, ok) => Register(s, sub, found, raised, ok)
    case Query(raised) => EstablishAll(s, raised)
    case Unregistration(peer, client, bare) => if bare then Unregister(s, peer, client) else s
    case Close(peer) => Closed(s, peer)
    case Change(n) => Changed(s, n)
  }

  // ---------------------------------------------------------------- the server object

  class PcbServer {
    var notifierRegisterNext: seq<Sub>
    var notifierRegisterList: seq<Active>
    var connections: multiset<Source>
    var closeHandlers: multiset<Peer>
    var sent: seq<Message>
    var broken: bool
    ghost var accepted: seq<Sub>
    ghost var taken: seq<Active>
    ghost var removed: multiset<Active>

    ghost function State(): Server
      reads this
    {
      Server(notifierRegisterNext, notifierRegisterList, connections, closeHandlers, broken, accepted, taken, removed,
             sent)
    }

    constructor ()
      ensures State() == EMPTY
    {
      notifierRegisterNext, notifierRegisterList := [], [];
      connections, closeHandlers := multiset{}, multiset{};
      sent, broken := [], false;
      accepted, taken, removed := [], [], multiset{};
    }

    /** One event, from the network or from a notifier. */
    method Handle(e: Event)
      modifies this
      ensures State() == Step(old(State()), e)
    {
      match e
      case Registration(sub, found, raised, ok) =>
        var _ := RegisterNotifier(sub.peer, sub.client, sub.id, found, raised, ok);
      case Query(raised) => ExecuteQuery(raised);
      case Unregistration(peer, client, bare) => var _ := UnregisterNotifier(peer, client, bare);
      case Close(peer) => PeerConnectionClosed(peer);
      case Change(n) => ValueChanged(n);
    }

    method EstablishNewNotifier(n: Source)
      modifies this
      ensures State() == Establish(old(State()), n)
    {
      if |notifierRegisterNext| > 0 {
        connections := connections[n := 0];
        var notData := notifierRegisterNext[0];
        notifierRegisterNext := notifierRegisterNext[1..];
        var entry := Active(notData, n);
        notifierRegisterList := notifierRegisterList + [entry];
        taken := taken + [entry];
        connections := connections + multiset{n};
      }
    }

    /** Executing a query raises notifiers, in order. */
    method ExecuteQuery(raised: seq<Source>)
      modifies this
      ensures State() == EstablishAll(old(State()), raised)
    {
      for i := 0 to |raised|
        invariant State() == EstablishAll(old(State()), raised[..i])
      {
        assert raised[..i + 1][..i] == raised[..i];
        EstablishNewNotifier(raised[i]);
      }
      assert raised[..|raised|] == raised;
    }

    method RegisterNotifier(peer: Peer, client: string, id: int, found: bool, raised: seq<Source>, ok: bool)
      returns (ack: bool)
      modifies this
      ensures State() == Register(old(State()), SubOf(peer, client, id), found, raised, ok)
      ensures ack == (found && ok)
    {
      if !found { return false; }
      var notData := Sub(peer, client, id % 0x1_0000);
      Enqueue(notData);
      ExecuteQuery(raised);
      Settle(notData, ok);
      return ok;
    }

    method Enqueue(notData: Sub)
      modifies this
      ensures State() == Queued(old(State()), notData)
    {
      closeHandlers := closeHandlers + multiset{notData.peer};
      notifierRegisterNext := notifierRegisterNext + [notData];
    }

    method Settle(notData: Sub, ok: bool)
      modifies this
      ensures State() == Settled(old(State()), notData, ok)
    {
      if !ok {
        if |notifierRegisterNext| == 0 { broken := true; }
        else { notifierRegisterNext := notifierRegisterNext[..|notifierRegisterNext| - 1]; }
      } else {
        accepted := accepted + [notData];
      }
    }

    /** Removes from the back, so that the indices still to visit stay put. */
    method RemoveMatching(peer: Peer, client: string)
      modifies this`notifierRegisterList
      ensures notifierRegisterList == Without(old(notifierRegisterList), peer, client)
    {
      ghost var all := notifierRegisterList;
      RemovingStarts(all, peer, client);
      var i := |notifierRegisterList| - 1;
      while i >= 0
        invariant -1 <= i && Removing(all, notifierRegisterList, i + 1, peer, client)
        decreases i
      {
        RemovingStep(all, notifierRegisterList, i, peer, client);
        var notData := notifierRegisterList[i];
        if peer == notData.sub.peer {
          if client == "" || notData.sub.client == "" || notData.sub.client == client {
            notifierRegisterList := notifierRegisterList[..i] + notifierRegisterList[i + 1..];
          }
        }
        i := i - 1;
      }
      RemovingEnds(all, notifierRegisterList, peer, client);
    }

    method DoUnregisterNotifier(peer: Peer, client: string)
      modifies this
      ensures State() == Unregister(old(State()), peer, client)
    {
      RemoveMatching(peer, client);
      removed := removed + (multiset(old(notifierRegisterList)) - multiset(notifierRegisterList));
    }

    /** The command form: without parameters only. */
    method UnregisterNotifier(peer: Peer, client: string, bare: bool) returns (ack: bool)
      modifies this
      ensures ack == bare
      ensures State() == if bare then Unregister(old(State()), peer, client) else old(State())
    {
      if bare {
        DoUnregisterNotifier(peer, client);
      }
      return bare;
    }

    /** The peer's close signal reaches this server once per connection made to it. */
    method PeerConnectionClosed(peer: Peer)
      modifies this
      ensures State() == Closed(old(State()), peer)
    {
      ghost var before := State();
      for i := 0 to closeHandlers[peer]
        invariant State() == CloseTimes(before, peer, i) && closeHandlers == before.hooks
      {
        DoUnregisterNotifier(peer, "");
      }
    }

    /** One run of the change handler. The message object is made once and reused for every entry. */
    method AsyncHandler(n: Source)
      modifies this
      ensures State() == old(State()).(sent := old(sent) + FanOut(old(notifierRegisterList), n))
    {
      if |notifierRegisterList| > 0 {
        var messageId: nat, messageClient: string := 0, "";
        for i := 0 to |notifierRegisterList|
          invariant notifierRegisterList == old(notifierRegisterList)
          invariant State() == old(State()).(sent := old(sent) + FanOut(notifierRegisterList[..i], n))
        {
          assert notifierRegisterList[..i + 1][..i] == notifierRegisterList[..i];
          var notData := notifierRegisterList[i];
          if notData.source == n {
            if notData.sub.client == "" {
              sent := sent + [Raw(notData.sub.peer, notData.sub.id)];
            } else {
              messageId := notData.sub.id;
              messageClient := notData.sub.client;
              sent := sent + [Framed(notData.sub.peer, messageClient, messageId)];
            }
          }
        }
        assert notifierRegisterList[..|notifierRegisterList|] == notifierRegisterList;
      }
    }

    method ValueChanged(n: Source)
      modifies this
      ensures State() == Changed(old(State()), n)
    {
      ghost var before := State();
      for i := 0 to connections[n]
        invariant State() == HandleTimes(before, n, i) && connections == before.live
      {
        AsyncHandler(n);
      }
    }
  }
}
