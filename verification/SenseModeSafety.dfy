/** The order of what the outside sees of a mode change, over every run. */
module SenseModeSafety {
  import opened Resource
  import opened SenseMode
  import opened Wrappers
  import opened SenseModeRuns

  // ---------------------------------------------------------------- two phases

  /** The number's acknowledgement stands between two places of the log. */
  ghost predicate AckIn(log: seq<Entry>, nr: nat, from: int, to: int)
  {
    exists k :: 0 <= k < |log| && from < k < to && log[k] == AckSeen(nr)
  }

  ghost predicate AllAckIn(log: seq<Entry>, nrs: seq<nat>, from: int, to: int)
  {
    forall nr :: nr in nrs ==> AckIn(log, nr, from, to)
  }

  /** The entry at `at` sends a batch of `count`; `registering` says which kind. */
  ghost predicate BatchAt(log: seq<Entry>, at: int, registering: bool, count: nat)
  {
    0 <= at < |log| && log[at].Sent? && log[at].registering == registering && |log[at].nrs| == count
  }

  ghost predicate NothingSent(log: seq<Entry>, from: int, to: int)
  {
    forall k :: 0 <= k < |log| && from < k < to ==> !log[k].Sent?
  }

  ghost predicate NothingPublished(log: seq<Entry>, from: int, to: int)
  {
    forall k :: 0 <= k < |log| && from < k < to ==> !log[k].Published?
  }

  /** Up to place i: an unregister batch, all its acknowledgements, then a register batch, all its
      acknowledgements, no other batch and no publication since. */
  ghost predicate TwoPhases(log: seq<Entry>, u: int, r: int, i: int)
  {
    && u < r < i
    && BatchAt(log, u, false, CHANNELS) && BatchAt(log, r, true, CHANNELS + 1)
    && AllAckIn(log, log[u].nrs, u, r) && AllAckIn(log, log[r].nrs, r, i)
    && NothingSent(log, u, r) && NothingSent(log, r, i)
    && NothingPublished(log, u, i)
  }

  /** Every publication comes after its two phases; every deferred answer directly after a publication. */
  ghost predicate Safe(log: seq<Entry>)
  {
    && (forall i :: 0 <= i < |log| && log[i].Published? ==> exists u, r :: TwoPhases(log, u, r, i))
    && (forall i :: 0 <= i < |log| && log[i].Answer? && log[i].deferred ==> i > 0 && log[i - 1].Published?)
  }

  /** A batch that is the last one sent: each of its numbers is outstanding or has been acknowledged since. */
  ghost predicate OpenBatch(s: Sense, at: int, registering: bool, count: nat)
  {
    && BatchAt(s.log, at, registering, count)
    && NothingSent(s.log, at, |s.log|)
    && forall nr :: nr in s.log[at].nrs && nr !in s.outstanding ==> AckIn(s.log, nr, at, |s.log|)
  }

  ghost predicate Ordered(s: Sense)
  {
    && Safe(s.log)
    && (s.phase == Unregistering || s.phase == Registering ==> NothingPublished(s.log, s.unregAt, |s.log|))
    && (s.phase == Unregistering ==> OpenBatch(s, s.unregAt, false, CHANNELS))
    && (s.phase == Registering ==>
          && s.unregAt < s.regAt
          && OpenBatch(s, s.regAt, true, CHANNELS + 1)
          && BatchAt(s.log, s.unregAt, false, CHANNELS)
          && AllAckIn(s.log, s.log[s.unregAt].nrs, s.unregAt, s.regAt)
          && NothingSent(s.log, s.unregAt, s.regAt))
  }

  lemma AckInLonger(log: seq<Entry>, x: seq<Entry>, nr: nat, from: int, to: int)
    requires AckIn(log, nr, from, to)
    ensures AckIn(log + x, nr, from, to) && AckIn(log + x, nr, from, to + |x|)
  {
    var k :| 0 <= k < |log| && from < k < to && log[k] == AckSeen(nr);
    assert (log + x)[k] == AckSeen(nr);
  }

  lemma AllAckInLonger(log: seq<Entry>, x: seq<Entry>, nrs: seq<nat>, from: int, to: int)
    requires AllAckIn(log, nrs, from, to)
    ensures AllAckIn(log + x, nrs, from, to)
  {
    forall nr | nr in nrs ensures AckIn(log + x, nr, from, to) { AckInLonger(log, x, nr, from, to); }
  }

  lemma TwoPhasesLonger(log: seq<Entry>, x: seq<Entry>, u: int, r: int, i: int)
    requires TwoPhases(log, u, r, i) && i <= |log|
    ensures TwoPhases(log + x, u, r, i)
  {
    AllAckInLonger(log, x, log[u].nrs, u, r);
    AllAckInLonger(log, x, log[r].nrs, r, i);
  }

  /** An entry that is neither a publication nor a deferred answer keeps the log safe. */
  lemma SafeLonger(log: seq<Entry>, e: Entry)
    requires Safe(log)
    requires !e.Published? && !(e.Answer? && e.deferred)
    ensures Safe(log + [e])
  {
    SafePrefix(log, [e]);
    assert (log + [e])[|log|] == e;
  }

  lemma SafePrefix(log: seq<Entry>, x: seq<Entry>)
    requires Safe(log)
    ensures forall i :: 0 <= i < |log| && (log + x)[i].Published? ==> exists u, r :: TwoPhases(log + x, u, r, i)
    ensures forall i :: 0 <= i < |log| && (log + x)[i].Answer? && (log + x)[i].deferred ==>
                          i > 0 && (log + x)[i - 1].Published?
  {
    forall i | 0 <= i < |log| && (log + x)[i].Published? ensures exists u, r :: TwoPhases(log + x, u, r, i) {
      assert log[i].Published?;
      var u, r :| TwoPhases(log, u, r, i);
      TwoPhasesLonger(log, x, u, r, i);
    }
    forall i | 0 <= i < |log| && (log + x)[i].Answer? && (log + x)[i].deferred
      ensures i > 0 && (log + x)[i - 1].Published?
    {
      assert log[i].Answer? && log[i].deferred;
    }
  }

  lemma SafePublished(log: seq<Entry>, mode: Mode, u: int, r: int)
    requires Safe(log) && TwoPhases(log, u, r, |log|)
    ensures Safe(log + [Published(mode)])
  {
    var x := [Published(mode)];
    SafePrefix(log, x);
    TwoPhasesLonger(log, x, u, r, |log|);
    assert (log + x)[|log|] == Published(mode);
  }

  lemma SafeAnswered(log: seq<Entry>, id: nat)
    requires Safe(log) && log != [] && log[|log| - 1].Published?
    ensures Safe(log + [Answer(id, true, true)])
  {
    var x := [Answer(id, true, true)];
    SafePrefix(log, x);
    assert (log + x)[|log| - 1] == log[|log| - 1] && (log + x)[|log|] == x[0];
  }

  /** Logging something harmless keeps an open batch open. */
  lemma OpenLonger(s: Sense, e: Entry, at: int, registering: bool, count: nat)
    requires OpenBatch(s, at, registering, count) && !e.Sent?
    ensures OpenBatch(Logged(s, e), at, registering, count)
  {
    forall nr | nr in s.log[at].nrs && nr !in s.outstanding ensures AckIn(s.log + [e], nr, at, |s.log| + 1) {
      AckInLonger(s.log, [e], nr, at, |s.log|);
    }
  }

  lemma OrderedLonger(s: Sense, e: Entry)
    requires Ordered(s) && !e.Sent? && !e.Published? && !(e.Answer? && e.deferred)
    ensures Ordered(Logged(s, e))
  {
    SafeLonger(s.log, e);
    if s.phase == Unregistering {
      OpenLonger(s, e, s.unregAt, false, CHANNELS);
    } else if s.phase == Registering {
      OpenLonger(s, e, s.regAt, true, CHANNELS + 1);
      AllAckInLonger(s.log, [e], s.log[s.unregAt].nrs, s.unregAt, s.regAt);
    }
  }

  lemma {:induction false} RemovedOnly(list: seq<nat>, n: nat, x: nat)
    requires x in list && x != n
    ensures x in RemoveOne(list, n)
  {
    if list[0] != n && list[0] != x { RemovedOnly(list[1..], n, x); }
  }

  /** An acknowledgement takes a number off the list only after it is in the log. */
  lemma AckKeepsOpen(s: Sense, nr: nat, at: int, registering: bool, count: nat)
    requires OpenBatch(s, at, registering, count)
    ensures OpenBatch(Logged(s, AckSeen(nr)).(outstanding := Acked(s.outstanding, nr)), at, registering, count)
  {
    var t := Logged(s, AckSeen(nr)).(outstanding := Acked(s.outstanding, nr));
    OpenLonger(s, AckSeen(nr), at, registering, count);
    forall x | x in t.log[at].nrs && x !in t.outstanding ensures AckIn(t.log, x, at, |t.log|) {
      if x in s.outstanding {
        if x != nr { RemovedOnly(s.outstanding, nr, x); }
        assert t.log[|s.log|] == AckSeen(nr);
      }
    }
  }

  ghost predicate Received(s: Sense, nr: nat, t: Sense)
  {
    t == Logged(s, AckSeen(nr)).(outstanding := Acked(s.outstanding, nr))
  }

  lemma ReceivedOrdered(s: Sense, nr: nat, t: Sense)
    requires Ordered(s) && Received(s, nr, t)
    ensures Ordered(t)
  {
    SafeLonger(s.log, AckSeen(nr));
    if s.phase == Unregistering {
      AckKeepsOpen(s, nr, s.unregAt, false, CHANNELS);
    } else if s.phase == Registering {
      AckKeepsOpen(s, nr, s.regAt, true, CHANNELS + 1);
      AllAckInLonger(s.log, [AckSeen(nr)], s.log[s.unregAt].nrs, s.unregAt, s.regAt);
    }
  }

  lemma EnterUnregisterOrdered(s: Sense)
    requires Ordered(s)
    ensures Ordered(EnterUnregister(s))
  {
    var t := EnterUnregister(s);
    SafeLonger(s.log, Sent(false, Batch(s.drawn, CHANNELS)));
    assert t.log[|s.log|] == Sent(false, t.outstanding);
  }

  lemma EnterRegisterOrdered(s: Sense)
    requires Ordered(s) && s.phase == Unregistering && s.outstanding == []
    ensures Ordered(EnterRegister(s))
  {
    var t := EnterRegister(s);
    var e := Sent(true, Batch(s.drawn, CHANNELS + 1));
    SafeLonger(s.log, e);
    assert t.log == s.log + [e] && t.log[|s.log|] == e;
    AllAckInLonger(s.log, [e], s.log[s.unregAt].nrs, s.unregAt, |s.log|);
  }

  lemma EnterNotifyOrdered(s: Sense)
    requires Ordered(s) && s.phase == Registering && s.outstanding == [] && s.cmds != []
    ensures Ordered(EnterNotify(s))
  {
    assert TwoPhases(s.log, s.unregAt, s.regAt, |s.log|);
    SafePublished(s.log, s.mode, s.unregAt, s.regAt);
    SafeAnswered(s.log + [Published(s.mode)], s.cmds[0].id);
  }

  lemma AckOrdered(s: Sense, nr: nat)
    requires Serving(s) && Ordered(s)
    ensures Ordered(AckStep(s, nr))
  {
    var t := Logged(s, AckSeen(nr)).(outstanding := Acked(s.outstanding, nr));
    ReceivedOrdered(s, nr, t);
    if Readies(s.outstanding, nr) {
      if s.phase == Unregistering { EnterRegisterOrdered(t); }
      else if s.phase == Registering { EnterNotifyOrdered(t); }
    }
  }

  lemma CommandOrdered(s: Sense, want: Option<Mode>, cmd: Cmd)
    requires Ordered(s)
    ensures Ordered(ModeCommand(s, want, cmd))
  {
    if want.None? { OrderedLonger(s, Answer(cmd.id, false, false)); }
    else if want.value == s.mode { OrderedLonger(s, Answer(cmd.id, true, false)); }
  }

  lemma RegisteredOrdered(s: Sense)
    requires Ordered(s) && !Waits(s)
    ensures Ordered(Registered(s))
  {
    SafeLonger(s.log, Sent(true, Batch(s.drawn, CHANNELS + 1)));
  }

  predicate Waits(s: Sense) { s.phase == Unregistering || s.phase == Registering }

  /** The startup registration arriving while the machine waits: it takes the place of what is outstanding. */
  predicate Disturbs(s: Sense, e: Event) { e.Startup? && Waits(s) }

  lemma OrderedStep(s: Sense, e: Event)
    requires Counted(s) && Ordered(s) && !Disturbs(s, e)
    ensures Ordered(Step(s, e))
  {
    match e
    case SetMode(want, cmd) => CommandOrdered(s, want, cmd);
    case Entered => EnterUnregisterOrdered(s);
    case AckOf(nr) => AckOrdered(s, nr);
    case Startup => RegisteredOrdered(s);
    case _ =>
  }

  /** At no moment of the run does the startup registration arrive while the machine waits. */
  ghost predicate Undisturbed(s: Sense, es: seq<Event>)
    requires Counted(s)
    decreases |es|
  {
    es == [] || (
      CountedStep(s, es[0]);
      !Disturbs(s, es[0]) && Undisturbed(Step(s, es[0]), es[1..]))
  }

  lemma {:induction false} OrderedRun(s: Sense, es: seq<Event>)
    requires Counted(s) && Ordered(s) && Undisturbed(s, es)
    ensures Ordered(Run(s, es))
    decreases |es|
  {
    if es != [] {
      CountedStep(s, es[0]);
      OrderedStep(s, es[0]);
      OrderedRun(Step(s, es[0]), es[1..]);
    }
  }

  /** Over every run in which the startup registration does not arrive while the machine waits, overlapping
      commands included: the mode is published, and a waiting command answered, only after all
      acknowledgements of an unregister batch and then all of a register batch came in, each time anew. */
  lemma TwoPhaseSafety(s: Sense, es: seq<Event>)
    requires Fresh(s)
    ensures Counted(s)
    ensures Undisturbed(s, es) ==> Safe(Run(s, es).log)
  {
    if Undisturbed(s, es) { OrderedRun(s, es); }
  }

  // ---------------------------------------------------------------- a disturbed turn

  /** The last batch in the log, at place `at`, is one of register commands. */
  ghost predicate EndsRegistering(log: seq<Entry>, at: int)
  {
    0 <= at < |log| && log[at].Sent? && log[at].registering && NothingSent(log, at, |log|)
  }

  /** So are the last two. */
  ghost predicate EndsTwice(log: seq<Entry>, p: int, at: int)
  {
    EndsRegistering(log, at) && 0 <= p < at && log[p].Sent? && log[p].registering && NothingSent(log, p, at)
  }

  /** The turn cannot be published safely any more: a foreign batch stands behind its own unregister batch. */
  ghost predicate Doomed(s: Sense)
  {
    || (s.phase == Unregistering && exists at :: EndsRegistering(s.log, at))
    || (s.phase == Registering && exists p, at :: EndsTwice(s.log, p, at))
  }

  ghost predicate Broken(s: Sense) { !Safe(s.log) || Doomed(s) }

  lemma TwoPhasesShorter(log: seq<Entry>, x: seq<Entry>, u: int, r: int, i: int)
    requires TwoPhases(log + x, u, r, i) && i <= |log|
    ensures TwoPhases(log, u, r, i)
  {
    var l := log + x;
    assert l[u] == log[u] && l[r] == log[r];
    forall nr | nr in log[u].nrs ensures AckIn(log, nr, u, r) { AckInShorter(log, x, nr, u, r); }
    forall nr | nr in log[r].nrs ensures AckIn(log, nr, r, i) { AckInShorter(log, x, nr, r, i); }
    assert forall k :: 0 <= k < |log| ==> log[k] == l[k];
  }

  lemma AckInShorter(log: seq<Entry>, x: seq<Entry>, nr: nat, from: int, to: int)
    requires AckIn(log + x, nr, from, to) && to <= |log|
    ensures AckIn(log, nr, from, to)
  {
    var k :| 0 <= k < |log + x| && from < k < to && (log + x)[k] == AckSeen(nr);
    assert log[k] == AckSeen(nr);
  }

  lemma SafeShorter(log: seq<Entry>, x: seq<Entry>)
    requires Safe(log + x)
    ensures Safe(log)
  {
    var l := log + x;
    forall i | 0 <= i < |log| && log[i].Published? ensures exists u, r :: TwoPhases(log, u, r, i) {
      assert l[i].Published?;
      var u, r :| TwoPhases(l, u, r, i);
      TwoPhasesShorter(log, x, u, r, i);
    }
    forall i | 0 <= i < |log| && log[i].Answer? && log[i].deferred ensures i > 0 && log[i - 1].Published? {
      assert l[i].Answer? && l[i].deferred;
      assert l[i - 1] == log[i - 1];
    }
  }

  lemma TwiceIsNoTurn(log: seq<Entry>, p: int, at: int, u: int, r: int)
    requires EndsTwice(log, p, at)
    ensures !TwoPhases(log, u, r, |log|)
  {
  }

  lemma PublishedTwice(log: seq<Entry>, p: int, at: int, mode: Mode, x: seq<Entry>)
    requires EndsTwice(log, p, at)
    ensures !Safe(log + [Published(mode)] + x)
  {
    if Safe(log + [Published(mode)] + x) {
      SafeShorter(log + [Published(mode)], x);
      assert (log + [Published(mode)])[|log|].Published?;
      var u, r :| TwoPhases(log + [Published(mode)], u, r, |log|);
      TwoPhasesShorter(log, [Published(mode)], u, r, |log|);
      TwiceIsNoTurn(log, p, at, u, r);
    }
  }

  lemma EndsLonger(log: seq<Entry>, e: Entry, at: int)
    requires EndsRegistering(log, at) && !e.Sent?
    ensures EndsRegistering(log + [e], at)
    ensures forall p :: EndsTwice(log, p, at) ==> EndsTwice(log + [e], p, at)
  {
  }

  lemma EndsAgain(log: seq<Entry>, nrs: seq<nat>)
    ensures EndsRegistering(log + [Sent(true, nrs)], |log|)
    ensures forall at :: EndsRegistering(log, at) ==> EndsTwice(log + [Sent(true, nrs)], at, |log|)
  {
    assert (log + [Sent(true, nrs)])[|log|] == Sent(true, nrs);
  }

  lemma LoggedDoomed(s: Sense, e: Entry)
    requires Doomed(s) && !e.Sent?
    ensures Doomed(Logged(s, e))
  {
    if s.phase == Unregistering {
      var at :| EndsRegistering(s.log, at);
      EndsLonger(s.log, e, at);
    } else {
      var p, at :| EndsTwice(s.log, p, at);
      EndsLonger(s.log, e, at);
    }
  }

  lemma RegisteredDoomed(s: Sense)
    requires Doomed(s)
    ensures Doomed(Registered(s))
  {
    EndsAgain(s.log, Batch(s.drawn, CHANNELS + 1));
  }

  lemma AckDoomed(s: Sense, nr: nat)
    requires Serving(s) && Doomed(s)
    ensures Broken(AckStep(s, nr))
  {
    var t := Logged(s, AckSeen(nr)).(outstanding := Acked(s.outstanding, nr));
    LoggedDoomed(s, AckSeen(nr));
    if Readies(s.outstanding, nr) {
      if s.phase == Unregistering {
        EndsAgain(t.log, Batch(t.drawn, CHANNELS + 1));
      } else {
        var p, at :| EndsTwice(t.log, p, at);
        NotifyUnsafe(t, p, at);
      }
    }
  }

  lemma NotifyUnsafe(t: Sense, p: int, at: int)
    requires EndsTwice(t.log, p, at) && t.cmds != []
    ensures !Safe(EnterNotify(t).log)
  {
    var x := if t.cmds[0].withOutput then [Answer(t.cmds[0].id, true, true)] else [];
    PublishedTwice(t.log, p, at, t.mode, x);
    assert EnterNotify(t).log == t.log + [Published(t.mode)] + x;
  }

  lemma CommandDoomed(s: Sense, want: Option<Mode>, cmd: Cmd)
    requires Doomed(s)
    ensures Doomed(ModeCommand(s, want, cmd))
  {
    LoggedDoomed(s, Answer(cmd.id, want.Some?, false));
  }

  lemma LogGrows(s: Sense, e: Event)
    requires Counted(s)
    ensures s.log <= Step(s, e).log
  {
  }

  lemma BrokenStep(s: Sense, e: Event)
    requires Counted(s) && Broken(s)
    ensures Broken(Step(s, e))
  {
    if !Safe(s.log) {
      var t := Step(s, e);
      LogGrows(s, e);
      if Safe(t.log) {
        assert t.log == s.log + t.log[|s.log|..];
        SafeShorter(s.log, t.log[|s.log|..]);
      }
    } else {
      match e
      case SetMode(want, cmd) => CommandDoomed(s, want, cmd);
      case AckOf(nr) => AckDoomed(s, nr);
      case Startup => RegisteredDoomed(s);
      case _ =>
    }
  }

  lemma BrokenRun(s: Sense, es: seq<Event>)
    requires Counted(s) && Broken(s)
    ensures Broken(Run(s, es))
  {
    forall t: Sense, e: Event | Counted(t) && Broken(t) ensures Broken(Step(t, e)) { BrokenStep(t, e); }
    EveryRun(s, es, (t: Sense) => Broken(t));
  }

  lemma DisturbedDoomed(s: Sense)
    requires Ordered(s) && Waits(s)
    ensures Doomed(Registered(s))
  {
    EndsAgain(s.log, Batch(s.drawn, CHANNELS + 1));
    if s.phase == Registering { assert EndsRegistering(s.log, s.regAt); }
  }

  lemma {:induction false} DisturbedBreaks(s: Sense, es: seq<Event>)
    requires Counted(s) && Ordered(s) && !Undisturbed(s, es)
    ensures Broken(Run(s, es))
    decreases |es|
  {
    CountedStep(s, es[0]);
    if Disturbs(s, es[0]) {
      DisturbedDoomed(s);
      BrokenRun(Step(s, es[0]), es[1..]);
    } else {
      OrderedStep(s, es[0]);
      DisturbedBreaks(Step(s, es[0]), es[1..]);
    }
  }

  lemma {:induction false} UndisturbedMore(s: Sense, es: seq<Event>, more: seq<Event>)
    requires Counted(s) && Undisturbed(s, es) && WithoutStartup(more)
    ensures Undisturbed(s, es + more)
    decreases |es| + |more|
  {
    if es != [] {
      CountedStep(s, es[0]);
      assert (es + more)[1..] == es[1..] + more;
      UndisturbedMore(Step(s, es[0]), es[1..], more);
    } else if more != [] {
      CountedStep(s, more[0]);
      assert es + more == more && [] + more[1..] == more[1..];
      UndisturbedMore(Step(s, more[0]), [], more[1..]);
    }
  }

  /** A broken turn can be driven to its unsafe publication by acknowledgements alone. */
  lemma BrokenShows(s: Sense) returns (more: seq<Event>)
    requires Counted(s) && Broken(s) && (Waits(s) ==> s.outstanding != [])
    ensures WithoutStartup(more) && !Safe(Run(s, more).log)
  {
    if !Safe(s.log) {
      more := [];
    } else if s.phase == Unregistering {
      more := TurnCompletes(s);
      BrokenRun(s, more);
    } else {
      more := Acks(s.outstanding);
      AcksOnly(s.outstanding);
      FromRegistering(s);
      BrokenRun(s, more);
    }
  }

  lemma {:induction false} BatchDistinct(drawn: nat, k: nat)
    requires k <= 0xFFFF_FFFF
    ensures NoDup(Batch(drawn, k))
    ensures forall i :: 0 <= i < k ==> Batch(drawn, k)[i] == NrAt(drawn + 1 + i)
  {
    if k > 0 {
      BatchDistinct(drawn, k - 1);
      forall i | 0 <= i < k - 1 ensures Batch(drawn, k)[i] != Batch(drawn, k)[k - 1] {
        NumbersDistinct(drawn + 1 + i, drawn + k);
      }
    }
  }

  /** Where the last batch stands in the log, or -1. */
  function LastSent(log: seq<Entry>): (at: int)
    ensures -1 <= at < |log|
    ensures at >= 0 ==> log[at].Sent?
  {
    if log == [] then -1 else if log[|log| - 1].Sent? then |log| - 1 else LastSent(log[..|log| - 1])
  }

  lemma LastSentMore(log: seq<Entry>, e: Entry)
    ensures LastSent(log + [e]) == if e.Sent? then |log| else LastSent(log)
  {
    assert (log + [e])[..|log|] == log;
  }

  lemma {:induction false} LastSentIs(log: seq<Entry>, at: int)
    requires 0 <= at < |log| && log[at].Sent? && NothingSent(log, at, |log|)
    ensures LastSent(log) == at
  {
    var m := |log| - 1;
    if at < m {
      assert !log[m].Sent?;
      LastSentIs(log[..m], at);
    }
  }

  /** The number belongs to the last batch and its acknowledgement has not come since. */
  ghost predicate Missing(s: Sense, nr: nat)
  {
    var at := LastSent(s.log);
    at >= 0 && nr in s.log[at].nrs && !AckIn(s.log, nr, at, |s.log|)
  }

  /** What is outstanding is what is missing, each number once, and something is. */
  ghost predicate Exact(s: Sense)
  {
    Waits(s) ==>
      && LastSent(s.log) >= 0
      && s.outstanding != [] && NoDup(s.outstanding)
      && forall nr :: nr in s.outstanding <==> Missing(s, nr)
  }

  lemma AckInMore(log: seq<Entry>, e: Entry, nr: nat, from: nat)
    requires from < |log|
    ensures AckIn(log + [e], nr, from, |log| + 1) <==> AckIn(log, nr, from, |log|) || e == AckSeen(nr)
  {
    assert (log + [e])[|log|] == e;
    if AckIn(log, nr, from, |log|) { AckInLonger(log, [e], nr, from, |log|); }
    if k :| 0 <= k < |log + [e]| && from < k < |log| + 1 && (log + [e])[k] == AckSeen(nr) {
      if k < |log| { assert log[k] == AckSeen(nr); }
    }
  }

  lemma LoggedExact(s: Sense, e: Entry)
    requires Exact(s) && !e.AckSeen? && !e.Sent?
    ensures Exact(Logged(s, e))
  {
    LastSentMore(s.log, e);
    if Waits(s) {
      forall nr ensures Missing(Logged(s, e), nr) <==> Missing(s, nr) { AckInMore(s.log, e, nr, LastSent(s.log)); }
    }
  }

  /** A batch just sent is missing as a whole. */
  lemma SentExact(t: Sense, log: seq<Entry>, registering: bool)
    requires t.log == log + [Sent(registering, t.outstanding)]
    requires NoDup(t.outstanding) && t.outstanding != []
    ensures Exact(t)
  {
    LastSentMore(log, Sent(registering, t.outstanding));
    assert t.log[|log|] == Sent(registering, t.outstanding);
  }

  lemma ReceivedExact(s: Sense, nr: nat, t: Sense)
    requires Exact(s) && Waits(s) && Received(s, nr, t) && t.outstanding != []
    ensures Exact(t)
  {
    RemoveOneIs(s.outstanding, nr);
    LastSentMore(s.log, AckSeen(nr));
    forall x ensures Missing(t, x) <==> Missing(s, x) && x != nr {
      AckInMore(s.log, AckSeen(nr), x, LastSent(s.log));
    }
  }

  lemma AckExact(s: Sense, nr: nat)
    requires Serving(s) && Exact(s)
    ensures Exact(AckStep(s, nr))
  {
    var t := Logged(s, AckSeen(nr)).(outstanding := Acked(s.outstanding, nr));
    if Waits(s) {
      if t.outstanding != [] { ReceivedExact(s, nr, t); }
      BatchDistinct(t.drawn, CHANNELS + 1);
      if s.phase == Unregistering { SentExact(EnterRegister(t), t.log, true); }
    }
  }

  lemma CommandExact(s: Sense, want: Option<Mode>, cmd: Cmd)
    requires Exact(s)
    ensures Exact(ModeCommand(s, want, cmd))
  {
    LoggedExact(s, Answer(cmd.id, want.Some?, false));
    if want.Some? && want.value != s.mode {
      var t := ModeCommand(s, want, cmd);
      assert forall nr :: Missing(t, nr) <==> Missing(s, nr);
    }
  }

  lemma ExactStep(s: Sense, e: Event)
    requires Counted(s) && Exact(s)
    ensures Exact(Step(s, e))
  {
    match e
    case SetMode(want, cmd) => CommandExact(s, want, cmd);
    case Entered =>
      BatchDistinct(s.drawn, CHANNELS);
      SentExact(EnterUnregister(s), s.log, false);
    case AckOf(nr) => AckExact(s, nr);
    case Startup =>
      BatchDistinct(s.drawn, CHANNELS + 1);
      SentExact(Registered(s), s.log, true);
    case SetRange(_, _, _, _) => assert forall nr :: Missing(Step(s, e), nr) <==> Missing(s, nr);
    case Drawn(_) => assert forall nr :: Missing(Step(s, e), nr) <==> Missing(s, nr);
  }

  lemma RunExact(s: Sense, es: seq<Event>)
    requires Counted(s) && Exact(s)
    ensures Exact(Run(s, es))
  {
    forall t: Sense, e: Event | Counted(t) && Exact(t) ensures Exact(Step(t, e)) { ExactStep(t, e); }
    EveryRun(s, es, (t: Sense) => Exact(t));
  }

  /** Where the batch that the machine sent on entering its state stands in the log. */
  function OwnPlace(s: Sense): nat { if s.phase == Unregistering then s.unregAt else s.regAt }

  /** At any moment of any run in which the machine waits, an acknowledgement moves it on if and only if it
      completes the last batch sent: its number is missing and no other one is. That batch is the machine's
      own as long as the startup registration has not arrived while it waited. */
  lemma AdvancesOnCompletionIff(s: Sense, es: seq<Event>, nr: nat)
    requires Fresh(s)
    ensures Counted(s)
    ensures var t := Run(s, es);
            Waits(t) ==>
              (AckStep(t, nr).phase != t.phase <==> Missing(t, nr) && forall x :: Missing(t, x) ==> x == nr)
    ensures var t := Run(s, es);
            Waits(t) && Undisturbed(s, es) ==> LastSent(t.log) == OwnPlace(t)
  {
    RunExact(s, es);
    var t := Run(s, es);
    if Waits(t) { LastAck(t.outstanding, nr); }
    if Waits(t) && Undisturbed(s, es) {
      OrderedRun(s, es);
      LastSentIs(t.log, OwnPlace(t));
    }
  }

  /** Exactly the startup registration makes a waiting machine wait for another batch than its own. */
  lemma WaitsForOwnIff(t: Sense, e: Event)
    requires Counted(t) && Waits(t) && Waits(Step(t, e)) && LastSent(t.log) == OwnPlace(t)
    ensures LastSent(Step(t, e).log) == OwnPlace(Step(t, e)) <==> !e.Startup?
  {
    match e
    case SetMode(want, cmd) => LastSentMore(t.log, Answer(cmd.id, want.Some?, false));
    case AckOf(nr) =>
      LastSentMore(t.log, AckSeen(nr));
      LastSentMore(t.log + [AckSeen(nr)], Sent(true, Batch(t.drawn, CHANNELS + 1)));
    case Startup => LastSentMore(t.log, Sent(true, Batch(t.drawn, CHANNELS + 1)));
    case _ =>
  }

  lemma LastAck(list: seq<nat>, nr: nat)
    requires NoDup(list)
    ensures Readies(list, nr) <==> nr in list && forall x :: x in list ==> x == nr
  {
    RemoveOneIs(list, nr);
    if RemoveOne(list, nr) != [] { assert RemoveOne(list, nr)[0] in RemoveOne(list, nr); }
  }

  /** Two-phase safety, exactly: after a run, nothing that comes without a further startup registration can
      break it, if and only if that registration has never arrived while the machine waited. */
  lemma TwoPhaseSafetyIff(s: Sense, es: seq<Event>)
    requires Fresh(s)
    ensures Counted(s)
    ensures (forall more :: WithoutStartup(more) ==> Safe(Run(s, es + more).log)) <==> Undisturbed(s, es)
  {
    if Undisturbed(s, es) {
      forall more | WithoutStartup(more) ensures Safe(Run(s, es + more).log) {
        UndisturbedMore(s, es, more);
        TwoPhaseSafety(s, es + more);
      }
    } else {
      RunExact(s, es);
      DisturbedBreaks(s, es);
      var more := BrokenShows(Run(s, es));
      RunAppend(s, es, more);
    }
  }

  // ---------------------------------------------------------------- a run that breaks it

  /** What a run acknowledges. */
  lemma {:induction false} AcksSeen(s: Sense, es: seq<Event>, nr: nat)
    requires Counted(s) && AckSeen(nr) in Run(s, es).log
    ensures AckSeen(nr) in s.log || AckOf(nr) in es
    decreases |es|
  {
    if es != [] {
      CountedStep(s, es[0]);
      AcksSeen(Step(s, es[0]), es[1..], nr);
      StepSees(s, es[0], nr);
      assert es == [es[0]] + es[1..];
    }
  }

  lemma StepSees(s: Sense, e: Event, nr: nat)
    requires Counted(s)
    ensures AckSeen(nr) in Step(s, e).log ==> AckSeen(nr) in s.log || e == AckOf(nr)
  {
  }

  lemma {:induction false} AcksOf(nrs: seq<nat>, nr: nat)
    ensures AckOf(nr) in Acks(nrs) <==> nr in nrs
  {
    if nrs != [] {
      assert nrs == [nrs[0]] + nrs[1..];
      AcksOf(nrs[1..], nr);
    }
  }

  /** Batches of few numbers that follow each other have none in common. */
  lemma BatchesApart(a: nat, i: nat, b: nat, j: nat, nr: nat)
    requires a + i <= b && b + j < a + 0xFFFF_FFFF && nr in Batch(a, i)
    ensures nr !in Batch(b, j)
  {
    BatchDistinct(a, i);
    BatchDistinct(b, j);
    var k :| 0 <= k < i && Batch(a, i)[k] == nr;
    forall l | 0 <= l < j ensures Batch(b, j)[l] != nr { NumbersDistinct(a + 1 + k, b + 1 + l); }
  }

  /** The published mode, once it is not the initial one, is in the log. */
  lemma PublishedLogged(s: Sense, es: seq<Event>)
    requires Fresh(s)
    ensures Counted(s)
    ensures Run(s, es).published == AC || Published(Run(s, es).published) in Run(s, es).log
  {
    EveryRun(s, es, (t: Sense) => t.published == AC || Published(t.published) in t.log);
  }

  /** A run with the startup registration in a turn: the mode is published although not one of the numbers of
      the unregister commands was acknowledged. The seven numbers of the registration were instead. */
  lemma StartupMisleads(s: Sense) returns (es: seq<Event>)
    requires Fresh(s)
    ensures Counted(s)
    ensures var log := Run(s, es).log;
            && Published(REF) in log
            && forall nr :: nr in Batch(s.drawn, CHANNELS) ==> AckSeen(nr) !in log
  {
    var t := DisturbedTurn(s);
    var tail := DisturbedTail(t, s.drawn);
    es := DisturbedRun(s, t, tail);
    PublishedLogged(s, es);
  }

  /** Acknowledging the startup registration, then the register batch, ends the turn. */
  lemma DisturbedTail(t: Sense, drawn: nat) returns (tail: seq<Event>)
    requires Counted(t) && t.phase == Unregistering && t.mode == REF && t.drawn == drawn + 2 * CHANNELS + 1
    requires t.outstanding == Batch(drawn + CHANNELS, CHANNELS + 1) && forall nr :: AckSeen(nr) !in t.log
    ensures Run(t, tail).phase == Idle && Run(t, tail).published == REF
    ensures forall nr :: nr in Batch(drawn, CHANNELS) ==> AckSeen(nr) !in Run(t, tail).log
  {
    tail := Acks(t.outstanding) + Acks(Batch(t.drawn, CHANNELS + 1));
    TurnByAcks(t);
    forall nr | nr in Batch(drawn, CHANNELS) ensures AckSeen(nr) !in Run(t, tail).log {
      TurnIgnores(t, drawn, nr);
      NotAcked(t, tail, nr);
    }
  }

  /** The state after the mode command, the start of the machine and the startup registration. */
  lemma DisturbedTurn(s: Sense) returns (t: Sense)
    requires Fresh(s)
    ensures Counted(s) && Counted(t)
    ensures t == Registered(EnterUnregister(ModeCommand(s, Some(REF), Cmd(1, true))))
    ensures t.phase == Unregistering && t.mode == REF && t.drawn == s.drawn + 2 * CHANNELS + 1
    ensures t.outstanding == Batch(s.drawn + CHANNELS, CHANNELS + 1)
    ensures forall nr :: AckSeen(nr) !in t.log
  {
    t := Registered(EnterUnregister(ModeCommand(s, Some(REF), Cmd(1, true))));
  }

  lemma DisturbedRun(s: Sense, t: Sense, tail: seq<Event>) returns (es: seq<Event>)
    requires Fresh(s) && Counted(s) && Counted(t)
    requires t == Registered(EnterUnregister(ModeCommand(s, Some(REF), Cmd(1, true))))
    ensures Run(s, es) == Run(t, tail)
  {
    var there := SetMode(Some(REF), Cmd(1, true));
    CountedStep(s, there);
    CountedStep(Step(s, there), Entered);
    es := [there] + ([Entered] + ([Startup] + tail));
    RunThree(s, there, Entered, Startup, tail);
  }

  lemma NotAcked(s: Sense, es: seq<Event>, nr: nat)
    requires Counted(s) && AckSeen(nr) !in s.log && AckOf(nr) !in es
    ensures AckSeen(nr) !in Run(s, es).log
  {
    if AckSeen(nr) in Run(s, es).log { AcksSeen(s, es, nr); }
  }

  lemma TurnIgnores(t: Sense, drawn: nat, nr: nat)
    requires nr in Batch(drawn, CHANNELS)
    requires t.outstanding == Batch(drawn + CHANNELS, CHANNELS + 1) && t.drawn == drawn + 2 * CHANNELS + 1
    ensures AckOf(nr) !in Acks(t.outstanding) + Acks(Batch(t.drawn, CHANNELS + 1))
  {
    BatchesApart(drawn, CHANNELS, drawn + CHANNELS, CHANNELS + 1, nr);
    BatchesApart(drawn, CHANNELS, t.drawn, CHANNELS + 1, nr);
    AcksOf(t.outstanding, nr);
    AcksOf(Batch(t.drawn, CHANNELS + 1), nr);
  }
}
