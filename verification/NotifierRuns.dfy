/** What holds over every run of registrations, queries, changes, unregistrations and closed peers. */
module NotifierRuns {
  import opened Notifier
  import opened Wrappers

  function Run(s: Server, es: seq<Event>): Server
  {
    if es == [] then s else Step(Run(s, es[..|es| - 1]), es[|es| - 1])
  }

  // ---------------------------------------------------------------- filtering

  /** Removal is exact: matching entries go, all others stay as often as they were there. */
  lemma {:induction false} WithoutExact(active: seq<Active>, peer: Peer, client: string, a: Active)
    ensures multiset(Without(active, peer, client))[a] == if Matches(a, peer, client) then 0 else multiset(active)[a]
  {
    if active != [] {
      var m := |active| - 1;
      WithoutExact(active[..m], peer, client, a);
      assert active == active[..m] + [active[m]];
    }
  }

  /** Removal keeps the order: it works on each part of the list by itself. */
  lemma {:induction false} WithoutParts(a: seq<Active>, b: seq<Active>, peer: Peer, client: string)
    ensures Without(a + b, peer, client) == Without(a, peer, client) + Without(b, peer, client)
    decreases |b|
  {
    if b == [] {
      assert a + b == a;
    } else {
      var m := |b| - 1;
      assert (a + b)[..|a + b| - 1] == a + b[..m];
      WithoutParts(a, b[..m], peer, client);
    }
  }

  lemma {:induction false} WithoutNothing(active: seq<Active>, peer: Peer, client: string)
    requires forall a :: a in active ==> !Matches(a, peer, client)
    ensures Without(active, peer, client) == active
  {
    if active != [] {
      var m := |active| - 1;
      assert active == active[..m] + [active[m]];
      WithoutNothing(active[..m], peer, client);
      assert active[m] in active;
    }
  }

  lemma WithoutMembers(active: seq<Active>, peer: Peer, client: string)
    ensures forall a :: a in Without(active, peer, client) <==> a in active && !Matches(a, peer, client)
  {
    forall a ensures a in Without(active, peer, client) <==> a in active && !Matches(a, peer, client) {
      WithoutExact(active, peer, client, a);
      assert a in multiset(active) <==> a in active;
      assert a in multiset(Without(active, peer, client)) <==> a in Without(active, peer, client);
    }
  }

  /** Repeated close signals change nothing that the first did not. */
  lemma {:induction false} CloseOnce(s: Server, peer: Peer, times: nat)
    requires times > 0
    ensures CloseTimes(s, peer, times) == Unregister(s, peer, "")
  {
    if times > 1 {
      CloseOnce(s, peer, times - 1);
      var rest := Without(s.active, peer, "");
      WithoutMembers(s.active, peer, "");
      WithoutNothing(rest, peer, "");
      assert multiset(rest) - multiset(rest) == multiset{};
    }
  }

  // ---------------------------------------------------------------- conservation and order

  function Subs(as_: seq<Active>): (r: seq<Sub>)
    ensures |r| == |as_| && forall i :: 0 <= i < |as_| ==> r[i] == as_[i].sub
  {
    seq(|as_|, i requires 0 <= i < |as_| => as_[i].sub)
  }

  /** A notifier has one connection at most, and one if some entry is attached to it. */
  ghost predicate Connected(s: Server)
  {
    && (forall n :: s.live[n] <= 1)
    && (forall a :: a in s.active ==> s.live[a.source] == 1)
  }

  /** A waiting or active peer has a close handler. */
  ghost predicate Hooked(s: Server)
  {
    && (forall a :: a in s.active ==> s.hooks[a.sub.peer] > 0)
    && (forall p :: p in s.pending ==> s.hooks[p.peer] > 0)
  }

  /** Every notifier taken is active or was removed; and unless the queue broke, every acknowledged
      registration, in order, is one that was attached or one that still waits. Every break leaves one
      more registration attached than was acknowledged. */
  ghost predicate Accounted(s: Server)
  {
    && multiset(s.taken) == multiset(s.active) + s.removed
    && |s.accepted| <= |s.taken| + |s.pending|
    && (s.broken ==> |s.accepted| < |s.taken| + |s.pending|)
    && (!s.broken ==> s.accepted == Subs(s.taken) + s.pending)
  }

  ghost predicate Inv(s: Server) { Connected(s) && Hooked(s) && Accounted(s) }

  /** Inv with `waiting` appended to the accepted registrations: what holds while a query runs. */
  ghost predicate InvDuring(s: Server, waiting: seq<Sub>)
  {
    Inv(s.(accepted := s.accepted + waiting))
  }

  lemma EstablishKeeps(s: Server, n: Source, waiting: seq<Sub>)
    requires InvDuring(s, waiting)
    ensures InvDuring(Establish(s, n), waiting)
  {
    if s.pending != [] {
      var a := Active(s.pending[0], n);
      var t := Establish(s, n);
      assert Subs(t.taken) == Subs(s.taken) + [s.pending[0]];
      assert s.pending == [s.pending[0]] + t.pending;
      assert multiset(t.taken) == multiset(s.taken) + multiset{a};
      assert multiset(t.active) == multiset(s.active) + multiset{a};
    }
  }

  lemma {:induction false} EstablishAllKeeps(s: Server, raised: seq<Source>, waiting: seq<Sub>)
    requires InvDuring(s, waiting)
    ensures InvDuring(EstablishAll(s, raised), waiting)
  {
    if raised != [] {
      var m := |raised| - 1;
      EstablishAllKeeps(s, raised[..m], waiting);
      EstablishKeeps(EstablishAll(s, raised[..m]), raised[m], waiting);
    }
  }

  lemma {:induction false} EstablishAllHistory(s: Server, raised: seq<Source>)
    ensures var t := EstablishAll(s, raised);
            t.accepted == s.accepted && t.sent == s.sent && t.hooks == s.hooks && t.broken == s.broken
  {
    if raised != [] { EstablishAllHistory(s, raised[..|raised| - 1]); }
  }

  lemma RegisterKeeps(s: Server, sub: Sub, found: bool, raised: seq<Source>, ok: bool)
    requires Inv(s)
    ensures Inv(Register(s, sub, found, raised, ok))
  {
    if found {
      var q := Queued(s, sub);
      assert InvDuring(q, [sub]) by {
        assert s.accepted + [sub] == Subs(s.taken) + (s.pending + [sub]) || s.broken;
      }
      EstablishAllKeeps(q, raised, [sub]);
      EstablishAllHistory(q, raised);
      if !ok { FailureKeeps(EstablishAll(q, raised), sub); }
    }
  }

  /** Dropping the last waiting registration takes back the one just queued, or breaks the queue. */
  lemma FailureKeeps(t: Server, sub: Sub)
    requires InvDuring(t, [sub])
    ensures Inv(Settled(t, sub, false))
  {
    if t.pending != [] {
      var m := |t.pending| - 1;
      if !t.broken {
        assert (Subs(t.taken) + t.pending)[..|t.accepted|] == t.accepted;
        assert Subs(t.taken) + t.pending == (Subs(t.taken) + t.pending[..m]) + [t.pending[m]];
      }
    }
  }

  lemma UnregisterKeeps(s: Server, peer: Peer, client: string)
    requires Inv(s)
    ensures Inv(Unregister(s, peer, client))
  {
    var rest := Without(s.active, peer, client);
    WithoutMembers(s.active, peer, client);
    forall a ensures multiset(rest)[a] <= multiset(s.active)[a] { WithoutExact(s.active, peer, client, a); }
    assert multiset(rest) <= multiset(s.active);
  }

  lemma {:induction false} HandleTimesIs(s: Server, n: Source, times: nat)
    ensures HandleTimes(s, n, times) == s.(sent := HandleTimes(s, n, times).sent)
  {
    if times > 0 { HandleTimesIs(s, n, times - 1); }
  }

  lemma {:induction false} QueryKeeps(s: Server, raised: seq<Source>)
    requires Inv(s)
    ensures Inv(EstablishAll(s, raised))
  {
    var t := EstablishAll(s, raised);
    assert s.accepted + [] == s.accepted && t.accepted + [] == t.accepted;
    EstablishAllKeeps(s, raised, []);
  }

  lemma {:induction false} CloseKeeps(s: Server, peer: Peer)
    requires Inv(s)
    ensures Inv(Closed(s, peer))
  {
    if s.hooks[peer] > 0 { CloseOnce(s, peer, s.hooks[peer]); UnregisterKeeps(s, peer, ""); }
  }

  lemma {:induction false} ChangeKeeps(s: Server, n: Source)
    requires Inv(s)
    ensures Inv(Changed(s, n))
  {
    HandleTimesIs(s, n, s.live[n]);
  }

  lemma StepKeeps(s: Server, e: Event)
    requires Inv(s)
    ensures Inv(Step(s, e))
  {
    match e
    case Registration(sub, found, raised, ok) => RegisterKeeps(s, sub, found, raised, ok);
    case Query(raised) => QueryKeeps(s, raised);
    case Unregistration(peer, client, bare) => if bare { UnregisterKeeps(s, peer, client); }
    case Close(peer) => CloseKeeps(s, peer);
    case Change(n) => ChangeKeeps(s, n);
  }

  /** Whatever the queries do: the invariant holds in every state the server reaches. */
  lemma {:induction false} Reached(es: seq<Event>)
    ensures Inv(Run(EMPTY, es))
  {
    if es != [] {
      Reached(es[..|es| - 1]);
      StepKeeps(Run(EMPTY, es[..|es| - 1]), es[|es| - 1]);
    }
  }

  /** Over every run: no acknowledged registration is lost or invented, and the acknowledged ones are, in
      order, those attached and then those that wait, exactly when the queue was never popped empty. */
  lemma ConservedIffUnbroken(es: seq<Event>)
    ensures var s := Run(EMPTY, es);
            && (|s.accepted| == |s.pending| + |s.active| + |s.removed| <==> !s.broken)
            && (s.accepted == Subs(s.taken) + s.pending <==> !s.broken)
  {
    Reached(es);
    var s := Run(EMPTY, es);
    assert |multiset(s.taken)| == |multiset(s.active) + s.removed|;
    assert |Subs(s.taken) + s.pending| == |s.taken| + |s.pending|;
  }

  // ---------------------------------------------------------------- failed registrations

  lemma {:induction false} EstablishAllQueue(s: Server, raised: seq<Source>)
    ensures var t := EstablishAll(s, raised);
            && t.pending == (if |raised| <= |s.pending| then s.pending[|raised|..] else [])
            && |t.active| == |s.active| + |s.pending| - |t.pending|
  {
    if raised != [] {
      var m := |raised| - 1;
      EstablishAllQueue(s, raised[..m]);
      if m < |s.pending| { assert s.pending[m..][1..] == s.pending[|raised|..]; }
    }
  }

  /** A registration whose query failed after raising more notifiers than registrations were waiting. */
  predicate Overdraws(s: Server, e: Event)
  {
    e.Registration? && e.found && !e.ok && |e.raised| > |s.pending|
  }

  /** A failed registration takes back exactly its own entry, and the waiting ones are served in turn,
      unless its query raised more than were waiting: then its own entry is attached and stays, and the
      empty queue is popped. */
  lemma FailedRegistration(s: Server, sub: Sub, raised: seq<Source>)
    ensures var t := Register(s, sub, true, raised, false);
            && t.accepted == s.accepted
            && t.pending == (if |raised| <= |s.pending| then s.pending[|raised|..] else [])
            && (t.broken <==> s.broken || |raised| > |s.pending|)
            && |t.active| == |s.active| + if |raised| <= |s.pending| then |raised| else |s.pending| + 1
  {
    var q := Queued(s, sub);
    EstablishAllQueue(q, raised);
    EstablishAllHistory(q, raised);
    if |raised| <= |s.pending| {
      assert q.pending[|raised|..] == s.pending[|raised|..] + [sub];
    }
  }

  /** So it leaves queue and entries as they were exactly when its query raised nothing. */
  lemma FailedRegistrationHarmlessIff(s: Server, sub: Sub, raised: seq<Source>)
    ensures var t := Register(s, sub, true, raised, false);
            t.pending == s.pending && t.active == s.active && t.broken == s.broken <==> raised == []
  {
    FailedRegistration(s, sub, raised);
    if raised == [] {
      assert (s.pending + [sub])[..|s.pending|] == s.pending;
    }
  }

  /** A failed registration, never acknowledged, that is active all the same. */
  lemma FailedButActive(sub: Sub, n: Source)
    ensures var s := Run(EMPTY, [Registration(sub, true, [n], false)]);
            s.active == [Active(sub, n)] && s.accepted == [] && s.broken
  {
    var e := Registration(sub, true, [n], false);
    OneStep(EMPTY, e);
    var q := Queued(EMPTY, sub);
    assert q.pending == [sub];
    RaisedOne(q, n);
  }

  lemma StepBreaksIff(s: Server, e: Event)
    ensures Step(s, e).broken <==> s.broken || Overdraws(s, e)
  {
    match e
    case Registration(sub, found, raised, ok) =>
      if found {
        EstablishAllHistory(Queued(s, sub), raised);
        if !ok { FailedRegistration(s, sub, raised); }
      }
    case Query(raised) => EstablishAllHistory(s, raised);
    case Unregistration(_, _, _) =>
    case Close(peer) => if s.hooks[peer] > 0 { CloseOnce(s, peer, s.hooks[peer]); }
    case Change(n) => HandleTimesIs(s, n, s.live[n]);
  }

  ghost predicate OverdrawnAt(es: seq<Event>, i: int)
  {
    0 <= i < |es| && Overdraws(Run(EMPTY, es[..i]), es[i])
  }

  lemma OverdrawnEarlier(es: seq<Event>, m: nat, i: int)
    requires m <= |es|
    ensures OverdrawnAt(es[..m], i) <==> i < m && OverdrawnAt(es, i)
  {
    if 0 <= i < m { assert es[..m][..i] == es[..i]; }
  }

  /** Over every run: the queue is popped empty exactly when some failing query raised more notifiers than
      registrations were waiting before it. */
  lemma {:induction false} BrokenIffOverdrawn(es: seq<Event>)
    ensures Run(EMPTY, es).broken <==> exists i :: OverdrawnAt(es, i)
  {
    if es != [] {
      var m := |es| - 1;
      BrokenIffOverdrawn(es[..m]);
      StepBreaksIff(Run(EMPTY, es[..m]), es[m]);
      assert Overdraws(Run(EMPTY, es[..m]), es[m]) <==> OverdrawnAt(es, m);
      forall i ensures OverdrawnAt(es[..m], i) <==> i < m && OverdrawnAt(es, i) { OverdrawnEarlier(es, m, i); }
      assert forall i :: OverdrawnAt(es, i) ==> i <= m;
    }
  }

  /** A query that fails has raised nothing. */
  predicate Honest(e: Event) { e.Registration? && e.found && !e.ok ==> e.raised == [] }

  predicate AllHonest(es: seq<Event>) { forall i :: 0 <= i < |es| ==> Honest(es[i]) }

  /** So, where failing queries raise nothing, nothing is lost or invented, and the k-th notifier taken
      goes to the k-th acknowledged registration. */
  lemma ConservationAndOrder(es: seq<Event>)
    requires AllHonest(es)
    ensures var s := Run(EMPTY, es);
            && |s.accepted| == |s.pending| + |s.active| + |s.removed|
            && |s.taken| <= |s.accepted|
            && (forall k :: 0 <= k < |s.taken| ==> s.taken[k].sub == s.accepted[k])
            && s.pending == s.accepted[|s.taken|..]
  {
    BrokenIffOverdrawn(es);
    forall i ensures !OverdrawnAt(es, i) { if 0 <= i < |es| { assert Honest(es[i]); } }
    ConservedIffUnbroken(es);
    var s := Run(EMPTY, es);
    forall k | 0 <= k < |s.taken| ensures s.taken[k].sub == s.accepted[k] {
      assert Subs(s.taken)[k] == s.accepted[k];
    }
  }

  // ---------------------------------------------------------------- pairing

  /** A registered query raises exactly its own notifier, or fails and raises none. */
  predicate Prompt(e: Event)
  {
    e.Registration? && e.found ==> |e.raised| == if e.ok then 1 else 0
  }

  predicate AllPrompt(es: seq<Event>) { forall i :: 0 <= i < |es| ==> Prompt(es[i]) }

  /** The protocol without a queue: a registration is an entry at once. */
  function Direct(active: seq<Active>, e: Event): seq<Active>
    requires Prompt(e)
  {
    match e
    case Registration(sub, found, raised, ok) => if found && ok then active + [Active(sub, raised[0])] else active
    case Unregistration(peer, client, bare) => if bare then Without(active, peer, client) else active
    case Close(peer) => Without(active, peer, "")
    case Query(_) => active
    case Change(_) => active
  }

  function DirectRun(active: seq<Active>, es: seq<Event>): seq<Active>
    requires AllPrompt(es)
  {
    if es == [] then active else Direct(DirectRun(active, es[..|es| - 1]), es[|es| - 1])
  }

  lemma {:induction false} NothingWaiting(s: Server, raised: seq<Source>)
    requires s.pending == []
    ensures EstablishAll(s, raised) == s
  {
    if raised != [] { NothingWaiting(s, raised[..|raised| - 1]); }
  }

  lemma DirectStep(s: Server, e: Event)
    requires Hooked(s) && Prompt(e) && s.pending == []
    ensures Step(s, e).pending == [] && Step(s, e).active == Direct(s.active, e)
  {
    match e
    case Registration(sub, found, raised, ok) =>
      if found && ok {
        assert raised[..0] == [] && s.pending + [sub] == [sub];
        var q := Queued(s, sub);
        assert EstablishAll(q, raised) == Establish(EstablishAll(q, raised[..0]), raised[0]);
      }
    case Query(raised) => NothingWaiting(s, raised);
    case Unregistration(_, _, _) =>
    case Close(peer) =>
      if s.hooks[peer] > 0 { CloseOnce(s, peer, s.hooks[peer]); } else { WithoutNothing(s.active, peer, ""); }
    case Change(n) => HandleTimesIs(s, n, s.live[n]);
  }

  /** With prompt queries the queue is empty between commands, every entry pairs its own requester with
      the notifier of the query it named, and plain queries never subscribe anybody: the server behaves
      like the protocol without a queue. */
  lemma {:induction false} PromptRunsAreDirect(es: seq<Event>)
    requires AllPrompt(es)
    ensures Run(EMPTY, es).pending == [] && Run(EMPTY, es).active == DirectRun([], es)
  {
    if es != [] {
      var front := es[..|es| - 1];
      PromptRunsAreDirect(front);
      Reached(front);
      DirectStep(Run(EMPTY, front), es[|es| - 1]);
    }
  }

  lemma RaisedOne(s: Server, n: Source)
    ensures EstablishAll(s, [n]) == Establish(s, n)
  {
    assert [n][..0] == [];
    assert EstablishAll(s, [n]) == Establish(EstablishAll(s, [n][..0]), n);
  }

  /** Without promptness the pairing fails: a registration whose query raised nothing is attached to
      whatever anybody's later query raises. */
  lemma StaleEntryIsCaptured(sub: Sub, n: Source)
    ensures Run(EMPTY, [Registration(sub, true, [], true), Query([n])]).active == [Active(sub, n)]
  {
    TwoSteps(EMPTY, Registration(sub, true, [], true), Query([n]));
    RaisedOne(Step(EMPTY, Registration(sub, true, [], true)), n);
  }

  // ---------------------------------------------------------------- fan-out

  /** In every state the server reaches, whatever the queries raised and however they ended: a notifier
      has one live connection at most, and its change sends exactly one message per matching entry. */
  lemma ChangeSendsOncePerEntry(es: seq<Event>, n: Source)
    ensures var s := Run(EMPTY, es);
            s.live[n] <= 1 && Changed(s, n) == s.(sent := s.sent + FanOut(s.active, n))
  {
    Reached(es);
    var s := Run(EMPTY, es);
    if s.live[n] == 1 {
      assert HandleTimes(s, n, 0) == s;
    } else {
      NoEntries(s.active, n);
    }
  }

  lemma {:induction false} NoEntries(active: seq<Active>, n: Source)
    requires forall a :: a in active ==> a.source != n
    ensures FanOut(active, n) == []
  {
    if active != [] {
      var m := |active| - 1;
      assert forall a :: a in active[..m] ==> a in active;
      NoEntries(active[..m], n);
    }
  }

  /** The messages of a change, entry by entry: the i-th goes to the i-th matching entry, with its id. */
  lemma {:induction false} FanOutParts(a: seq<Active>, b: seq<Active>, n: Source)
    ensures FanOut(a + b, n) == FanOut(a, n) + FanOut(b, n)
    decreases |b|
  {
    if b == [] {
      assert a + b == a;
    } else {
      var m := |b| - 1;
      assert (a + b)[..|a + b| - 1] == a + b[..m];
      FanOutParts(a, b[..m], n);
    }
  }

  lemma {:induction false} FanOutAddresses(active: seq<Active>, n: Source, p: Peer)
    ensures (exists m :: m in FanOut(active, n) && m.peer == p)
       <==> (exists a :: a in active && a.source == n && a.sub.peer == p)
  {
    if active != [] {
      var m := |active| - 1;
      FanOutAddresses(active[..m], n, p);
      assert active == active[..m] + [active[m]];
      if active[m].source == n {
        assert MessageTo(active[m].sub).peer == active[m].sub.peer;
        assert MessageTo(active[m].sub) in FanOut(active, n);
        assert active[m] in active;
      }
      assert forall x :: x in FanOut(active[..m], n) ==> x in FanOut(active, n);
    }
  }

  // ---------------------------------------------------------------- closed peers

  /** A run in which the peer does not register again. */
  predicate QuietFor(p: Peer, es: seq<Event>)
  {
    forall i :: 0 <= i < |es| ==> !(es[i].Registration? && es[i].found && es[i].sub.peer == p)
  }

  ghost predicate Waits(s: Server, p: Peer) { exists x :: x in s.pending && x.peer == p }

  ghost predicate Attached(s: Server, p: Peer) { exists a :: a in s.active && a.sub.peer == p }

  /** Going from s to t adds messages, none of them to p. */
  ghost predicate SpareFrom(s: Server, t: Server, p: Peer)
  {
    s.sent <= t.sent && forall i :: |s.sent| <= i < |t.sent| ==> t.sent[i].peer != p
  }

  lemma {:induction false} EstablishAllQuiet(s: Server, raised: seq<Source>, p: Peer)
    requires !Waits(s, p) && !Attached(s, p)
    ensures var t := EstablishAll(s, raised); !Waits(t, p) && !Attached(t, p) && t.sent == s.sent
  {
    if raised != [] { EstablishAllQuiet(s, raised[..|raised| - 1], p); }
  }

  lemma {:induction false} HandleTimesQuiet(s: Server, n: Source, times: nat, p: Peer)
    requires !Attached(s, p)
    ensures SpareFrom(s, HandleTimes(s, n, times), p)
    ensures HandleTimes(s, n, times).active == s.active && HandleTimes(s, n, times).pending == s.pending
  {
    if times > 0 {
      HandleTimesQuiet(s, n, times - 1, p);
      var t := HandleTimes(s, n, times - 1);
      FanOutAddresses(t.active, n, p);
      var u := HandleTimes(s, n, times);
      forall i | |t.sent| <= i < |u.sent| ensures u.sent[i].peer != p {
        assert u.sent[i] == FanOut(t.active, n)[i - |t.sent|];
        assert u.sent[i] in FanOut(t.active, n);
      }
    }
  }

  lemma UnregisterQuiet(s: Server, peer: Peer, client: string, p: Peer)
    requires !Attached(s, p)
    ensures !Attached(Unregister(s, peer, client), p)
  {
    WithoutMembers(s.active, peer, client);
  }

  lemma {:induction false} CloseTimesQuiet(s: Server, peer: Peer, times: nat, p: Peer)
    requires !Attached(s, p)
    ensures var t := CloseTimes(s, peer, times); !Attached(t, p) && t.sent == s.sent && t.pending == s.pending
  {
    if times > 0 {
      CloseOnce(s, peer, times);
      UnregisterQuiet(s, peer, "", p);
    }
  }

  lemma StepQuiet(s: Server, e: Event, p: Peer)
    requires !Waits(s, p) && !Attached(s, p)
    requires !(e.Registration? && e.found && e.sub.peer == p)
    ensures !Waits(Step(s, e), p) && !Attached(Step(s, e), p) && SpareFrom(s, Step(s, e), p)
  {
    match e
    case Registration(sub, found, raised, ok) =>
      if found { EstablishAllQuiet(Queued(s, sub), raised, p); }
    case Query(raised) => EstablishAllQuiet(s, raised, p);
    case Unregistration(peer, client, bare) => if bare { UnregisterQuiet(s, peer, client, p); }
    case Close(peer) => CloseTimesQuiet(s, peer, s.hooks[peer], p);
    case Change(n) => HandleTimesQuiet(s, n, s.live[n], p);
  }

  lemma {:induction false} RunQuiet(s: Server, es: seq<Event>, p: Peer)
    requires !Waits(s, p) && !Attached(s, p) && QuietFor(p, es)
    ensures !Waits(Run(s, es), p) && !Attached(Run(s, es), p) && SpareFrom(s, Run(s, es), p)
  {
    if es != [] {
      var m := |es| - 1;
      RunQuiet(s, es[..m], p);
      StepQuiet(Run(s, es[..m]), es[m], p);
    }
  }

  /** Raising one notifier k times attaches the k oldest waiting registrations to it. */
  lemma {:induction false} RaisedRepeatedly(s: Server, n: Source, k: nat)
    requires k <= |s.pending|
    ensures var t := EstablishAll(s, Filled(n, k));
            && t.pending == s.pending[k..]
            && t.sent == s.sent
            && (k > 0 ==> t.live[n] == 1 && Active(s.pending[k - 1], n) in t.active)
  {
    if k > 0 {
      assert Filled(n, k)[..k - 1] == Filled(n, k - 1);
      RaisedRepeatedly(s, n, k - 1);
      var r := EstablishAll(s, Filled(n, k - 1));
      assert r.pending[0] == s.pending[k - 1];
      assert Active(s.pending[k - 1], n) in Establish(r, n).active;
    }
  }

  /** A change of n reaches p in a run when an entry of p is attached to n and n is connected once. */
  lemma {:induction false} ChangeReaches(s: Server, n: Source, p: Peer)
    requires s.live[n] == 1 && exists a :: a in s.active && a.source == n && a.sub.peer == p
    ensures exists i :: |s.sent| <= i < |Changed(s, n).sent| && Changed(s, n).sent[i].peer == p
  {
    assert HandleTimes(s, n, 0) == s;
    FanOutAddresses(s.active, n, p);
    var m :| m in FanOut(s.active, n) && m.peer == p;
    var i :| 0 <= i < |FanOut(s.active, n)| && FanOut(s.active, n)[i] == m;
    assert Changed(s, n).sent[|s.sent| + i] == m;
  }

  /** The run that makes a stale registration of p fire. */
  lemma {:induction false} StaleFires(s: Server, p: Peer) returns (es: seq<Event>)
    requires Waits(s, p)
    ensures QuietFor(p, es) && !SpareFrom(s, Run(s, es), p)
  {
    var x :| x in s.pending && x.peer == p;
    var k :| 0 <= k < |s.pending| && s.pending[k] == x;
    var e1, e2 := Query(Filled(0, k + 1)), Change(0);
    es := [e1, e2];
    TwoSteps(s, e1, e2);
    var t := EstablishAll(s, Filled(0, k + 1));
    RaisedRepeatedly(s, 0, k + 1);
    assert Active(x, 0) in t.active && Active(x, 0).source == 0 && Active(x, 0).sub.peer == p;
    ChangeReaches(t, 0, p);
  }

  lemma {:induction false} OneStep(s: Server, e: Event)
    ensures Run(s, [e]) == Step(s, e)
  {
    assert [e][..0] == [];
    assert Run(s, [e]) == Step(Run(s, [e][..0]), e);
  }

  lemma {:induction false} TwoSteps(s: Server, e1: Event, e2: Event)
    ensures Run(s, [e1, e2]) == Step(Step(s, e1), e2)
  {
    assert [e1, e2][..1] == [e1];
    OneStep(s, e1);
  }

  /** Once a peer is closed, in any state the server reaches, no run in which it does not register again
      sends to it, exactly when none of its registrations was still waiting: closing a peer purges the
      entries but not the queue. */
  lemma ClosedPeerQuietIff(before: seq<Event>, p: Peer)
    ensures var s := Run(EMPTY, before);
            (forall es :: QuietFor(p, es) ==> SpareFrom(Closed(s, p), Run(Closed(s, p), es), p)) <==> !Waits(s, p)
  {
    Reached(before);
    var s := Run(EMPTY, before);
    var t := Closed(s, p);
    if s.hooks[p] > 0 {
      CloseOnce(s, p, s.hooks[p]);
      WithoutMembers(s.active, p, "");
    }
    assert !Attached(t, p) && t.pending == s.pending;
    if Waits(s, p) {
      var es := StaleFires(t, p);
    } else {
      forall es | QuietFor(p, es) ensures SpareFrom(t, Run(t, es), p) { RunQuiet(t, es, p); }
    }
  }

  /** A peer that is closed while its registration waits, and sent to nevertheless: somebody's later query
      raises a notifier, and that changes. */
  lemma ClosedPeerIsSentTo(sub: Sub, n: Source)
    ensures var es := [Registration(sub, true, [], true), Close(sub.peer), Query([n]), Change(n)];
            Run(EMPTY, es).sent == [MessageTo(sub)]
  {
    var a, b, c, d := Registration(sub, true, [], true), Close(sub.peer), Query([n]), Change(n);
    assert [a, b, c, d][..3] == [a, b, c] && [a, b, c][..2] == [a, b];
    TwoSteps(EMPTY, a, b);
    assert Run(EMPTY, [a, b, c]) == Step(Run(EMPTY, [a, b]), c);
    CloseOnce(Step(EMPTY, a), sub.peer, 1);
    ServedThenChanged(Step(Step(EMPTY, a), b), sub, n);
  }

  lemma ServedThenChanged(s: Server, sub: Sub, n: Source)
    requires s.pending == [sub] && s.active == []
    ensures Changed(EstablishAll(s, [n]), n).sent == s.sent + [MessageTo(sub)]
  {
    RaisedOne(s, n);
    var t := Establish(s, n);
    assert t.live[n] == 1 && t.active == [Active(sub, n)];
    assert HandleTimes(t, n, 0) == t;
    assert [Active(sub, n)][..0] == [];
    assert FanOut([Active(sub, n)], n) == FanOut([Active(sub, n)][..0], n) + [MessageTo(sub)];
  }
}
