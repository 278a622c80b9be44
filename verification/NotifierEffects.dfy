/** What unregistering and a value change do, in terms of peers, clients and ids. */
module NotifierEffects {
  import opened Notifier
  import opened NotifierRuns

  // ---------------------------------------------------------------- unregistering

  /** Whose entries an unregistration of a client takes away: the peer's, those of another client excepted
      when both name one. */
  lemma UnregisteredExactly(s: Server, peer: Peer, client: string, a: Active)
    ensures multiset(Unregister(s, peer, client).active)[a] ==
            if a.sub.peer != peer then multiset(s.active)[a]
            else if client == "" || a.sub.client == "" || a.sub.client == client then 0
            else multiset(s.active)[a]
  {
    WithoutExact(s.active, peer, client, a);
  }

  /** Two clients: one peer's two clients with a name each, or clients of two peers. */
  predicate Apart(p: Peer, c: string, q: Peer, d: string)
  {
    p != q || (c != "" && d != "" && c != d)
  }

  predicate AddressedTo(m: Message, q: Peer, d: string)
  {
    match m
    case Raw(p, _) => p == q && d == ""
    case Framed(p, c, _) => p == q && d == c
  }

  /** The messages one client gets, in order. */
  function Mail(ms: seq<Message>, q: Peer, d: string): seq<Message>
  {
    if ms == [] then []
    else
      var k := |ms| - 1;
      Mail(ms[..k], q, d) + if AddressedTo(ms[k], q, d) then [ms[k]] else []
  }

  lemma MailMore(ms: seq<Message>, m: Message, q: Peer, d: string)
    ensures Mail(ms + [m], q, d) == if AddressedTo(m, q, d) then Mail(ms, q, d) + [m] else Mail(ms, q, d)
  {
    assert (ms + [m])[..|ms|] == ms;
  }

  lemma FanOutMore(active: seq<Active>, a: Active, n: Source)
    ensures FanOut(active + [a], n) ==
            if a.source == n then FanOut(active, n) + [MessageTo(a.sub)] else FanOut(active, n)
  {
    assert (active + [a])[..|active|] == active;
  }

  /** An entry put behind others adds its message to the mail of its own client only. */
  lemma MailOfOne(active: seq<Active>, a: Active, n: Source, q: Peer, d: string)
    ensures Mail(FanOut(active + [a], n), q, d) ==
            if a.source == n && a.sub.peer == q && a.sub.client == d
            then Mail(FanOut(active, n), q, d) + [MessageTo(a.sub)] else Mail(FanOut(active, n), q, d)
  {
    FanOutMore(active, a, n);
    if a.source == n { MailMore(FanOut(active, n), MessageTo(a.sub), q, d); }
  }

  lemma WithoutMore(active: seq<Active>, a: Active, p: Peer, c: string)
    ensures Without(active + [a], p, c) ==
            if Matches(a, p, c) then Without(active, p, c) else Without(active, p, c) + [a]
  {
    assert (active + [a])[..|active|] == active;
  }

  lemma {:induction false} MailKept(active: seq<Active>, n: Source, p: Peer, c: string, q: Peer, d: string)
    requires Apart(p, c, q, d)
    ensures Mail(FanOut(Without(active, p, c), n), q, d) == Mail(FanOut(active, n), q, d)
  {
    if active != [] {
      var k := |active| - 1;
      assert active == active[..k] + [active[k]];
      MailKept(active[..k], n, p, c, q, d);
      WithoutMore(active[..k], active[k], p, c);
      MailOfOne(active[..k], active[k], n, q, d);
      MailOfOne(Without(active[..k], p, c), active[k], n, q, d);
    }
  }

  lemma {:induction false} MailJoined(a: seq<Message>, b: seq<Message>, q: Peer, d: string)
    ensures Mail(a + b, q, d) == Mail(a, q, d) + Mail(b, q, d)
    decreases |b|
  {
    if b == [] {
      assert a + b == a;
    } else {
      var k := |b| - 1;
      MailJoined(a, b[..k], q, d);
      assert a + b == (a + b[..k]) + [b[k]];
      MailMore(a + b[..k], b[k], q, d);
    }
  }

  /** After every run: one client's unregistration leaves what another client gets at the next change of any
      notifier as it was, message by message. */
  lemma OthersStillServed(es: seq<Event>, n: Source, p: Peer, c: string, q: Peer, d: string)
    requires Apart(p, c, q, d)
    ensures var s := Run(EMPTY, es);
            Mail(Changed(Unregister(s, p, c), n).sent, q, d) == Mail(Changed(s, n).sent, q, d)
  {
    var s := Run(EMPTY, es);
    ChangeSendsOncePerEntry(es, n);
    ChangeSendsOncePerEntry(es + [Unregistration(p, c, true)], n);
    OneMore(es, Unregistration(p, c, true));
    MailKept(s.active, n, p, c, q, d);
    MailJoined(s.sent, FanOut(s.active, n), q, d);
    MailJoined(s.sent, FanOut(Without(s.active, p, c), n), q, d);
  }

  lemma OneMore(es: seq<Event>, e: Event)
    ensures Run(EMPTY, es + [e]) == Step(Run(EMPTY, es), e)
  {
    assert (es + [e])[..|es|] == es;
  }

  /** And the client itself gets nothing any more. */
  lemma {:induction false} NothingToUnregistered(active: seq<Active>, n: Source, p: Peer, c: string)
    ensures Mail(FanOut(Without(active, p, c), n), p, c) == []
  {
    if active != [] {
      var k := |active| - 1;
      assert active == active[..k] + [active[k]];
      NothingToUnregistered(active[..k], n, p, c);
      WithoutMore(active[..k], active[k], p, c);
      MailOfOne(Without(active[..k], p, c), active[k], n, p, c);
    }
  }

  // ---------------------------------------------------------------- the messages of a change

  /** The entries of a notifier, in order. */
  function EntriesOf(active: seq<Active>, n: Source): seq<Active>
  {
    if active == [] then []
    else
      var k := |active| - 1;
      EntriesOf(active[..k], n) + if active[k].source == n then [active[k]] else []
  }

  /** A message carries an entry's own peer, id and client; without a client it is in the old style. */
  predicate Carries(m: Message, sub: Sub)
  {
    && m.peer == sub.peer && m.id == sub.id
    && (m.Raw? <==> sub.client == "")
    && (m.Framed? ==> m.client == sub.client)
  }

  /** One message for each of the entries, the k-th carrying the k-th. */
  ghost predicate Delivered(ms: seq<Message>, entries: seq<Active>)
  {
    |ms| == |entries| && forall k :: 0 <= k < |ms| ==> Carries(ms[k], entries[k].sub)
  }

  lemma {:induction false} FanOutDelivers(active: seq<Active>, n: Source)
    ensures Delivered(FanOut(active, n), EntriesOf(active, n))
  {
    if active != [] { FanOutDelivers(active[..|active| - 1], n); }
  }

  /** After every run: a change of n sends as many messages as entries are attached to n, and the k-th goes
      to the peer of the k-th of them, with its id and its client. */
  lemma ChangeDelivers(es: seq<Event>, n: Source)
    ensures var s := Run(EMPTY, es);
            var sent := Changed(s, n).sent;
            s.sent <= sent && Delivered(sent[|s.sent|..], EntriesOf(s.active, n))
  {
    var s := Run(EMPTY, es);
    ChangeSendsOncePerEntry(es, n);
    FanOutDelivers(s.active, n);
    assert (s.sent + FanOut(s.active, n))[|s.sent|..] == FanOut(s.active, n);
  }

  /** Entries of a notifier are just those attached to it, each as often as it is active. */
  lemma {:induction false} EntriesExactly(active: seq<Active>, n: Source, a: Active)
    ensures multiset(EntriesOf(active, n))[a] == if a.source == n then multiset(active)[a] else 0
  {
    if active != [] {
      var k := |active| - 1;
      EntriesExactly(active[..k], n, a);
      assert active == active[..k] + [active[k]];
    }
  }

  // ---------------------------------------------------------------- what a registration keeps

  /** Peer and client are kept as they are, of the id the low 16 bits. */
  lemma RegistrationKeeps(peer: Peer, client: string, id: int)
    ensures SubOf(peer, client, id).peer == peer && SubOf(peer, client, id).client == client
    ensures 0 <= id < 0x1_0000 ==> SubOf(peer, client, id).id == id
    ensures SubOf(peer, client, id + 0x1_0000) == SubOf(peer, client, id)
  {
  }
}
