/** What holds over every run of mode commands, acknowledgements and range commands. */
module SenseModeRuns {
  import opened Resource
  import opened SenseMode
  import opened Wrappers

  /** How the counters hang together: the commands not yet answered are those that changed the mode, less
      one per completed turn of the machine. */
  ghost predicate Counted(s: Sense)
  {
    var running := if s.phase == Idle then 0 else 1;
    && Serving(s)
    && s.late <= s.overlaps <= |s.commands|
    && |s.cmds| == s.overlaps + running
    && s.toggles + s.overlaps + (if s.phase == Starting || s.phase == Unregistering then 1 else 0) == |s.commands|
    && (s.mode == REF <==> |s.commands| % 2 == 1)
    && (s.phase == Idle ==> s.published == s.mode)
  }

  lemma CountedStep(s: Sense, e: Event)
    requires Counted(s)
    ensures Counted(Step(s, e))
  {
  }

  function Run(s: Sense, es: seq<Event>): (t: Sense)
    requires Counted(s)
    ensures Counted(t)
    decreases |es|
  {
    if es == [] then s
    else
      CountedStep(s, es[0]);
      Run(Step(s, es[0]), es[1..])
  }

  /** What every step keeps, every run keeps. */
  lemma {:induction false} EveryRun(s: Sense, es: seq<Event>, kept: Sense -> bool)
    requires Counted(s) && kept(s)
    requires forall t: Sense, e: Event :: Counted(t) && kept(t) ==> kept(Step(t, e))
    ensures kept(Run(s, es))
    decreases |es|
  {
    if es != [] {
      CountedStep(s, es[0]);
      EveryRun(Step(s, es[0]), es[1..], kept);
    }
  }

  /** The interface as constructed. Nothing is asked of what is outstanding. */
  ghost predicate Fresh(s: Sense)
  {
    && s.mode == AC && s.phase == Idle && s.cmds == [] && s.published == AC && s.log == []
    && s.unregAt == s.regAt == s.toggles == s.overlaps == s.late == 0 && s.commands == []
    && |s.channels| == CHANNELS
    && Availability(s.channels, AC)
    && Moded(s.channels, AC)
    && Labelled(s.channels, AC)
  }

  // ---------------------------------------------------------------- who is answered

  /** The commands answered after a turn of the machine, in order. */
  function Deferred(log: seq<Entry>): seq<nat>
  {
    if log == [] then []
    else
      var m := |log| - 1;
      Deferred(log[..m]) + if log[m].Answer? && log[m].deferred then [log[m].id] else []
  }

  /** Those of the commands that want an answer. */
  function Wanting(cs: seq<Cmd>): seq<nat>
  {
    if cs == [] then []
    else
      var m := |cs| - 1;
      Wanting(cs[..m]) + if cs[m].withOutput then [cs[m].id] else []
  }

  /** The waiting commands are the latest of those that changed the mode, and the earlier ones have been
      answered, in order, each that wanted it once. */
  ghost predicate Answered(s: Sense)
  {
    && |s.cmds| <= |s.commands|
    && s.cmds == s.commands[|s.commands| - |s.cmds|..]
    && Deferred(s.log) == Wanting(s.commands[..|s.commands| - |s.cmds|])
  }

  lemma DeferredMore(log: seq<Entry>, e: Entry)
    ensures Deferred(log + [e]) == Deferred(log) + if e.Answer? && e.deferred then [e.id] else []
  {
    assert (log + [e])[..|log|] == log;
  }

  lemma LoggedAnswered(s: Sense, e: Entry)
    requires Answered(s) && !(e.Answer? && e.deferred)
    ensures Answered(Logged(s, e))
  {
    DeferredMore(s.log, e);
  }

  lemma NotifyAnswered(s: Sense)
    requires Answered(s) && s.cmds != []
    ensures Answered(EnterNotify(s))
  {
    var k := |s.commands| - |s.cmds|;
    assert s.commands[..k + 1][..k] == s.commands[..k];
    assert s.cmds[0] == s.commands[k];
    DeferredMore(s.log, Published(s.mode));
    DeferredMore(s.log + [Published(s.mode)], Answer(s.cmds[0].id, true, true));
  }

  lemma CommandAnswered(s: Sense, want: Option<Mode>, cmd: Cmd)
    requires Answered(s)
    ensures Answered(ModeCommand(s, want, cmd))
  {
    if want.None? { LoggedAnswered(s, Answer(cmd.id, false, false)); }
    else if want.value == s.mode { LoggedAnswered(s, Answer(cmd.id, true, false)); }
    else {
      var k := |s.commands| - |s.cmds|;
      assert (s.commands + [cmd])[k..] == s.commands[k..] + [cmd];
      assert (s.commands + [cmd])[..k] == s.commands[..k];
    }
  }

  lemma AckAnswered(s: Sense, nr: nat)
    requires Serving(s) && Answered(s)
    ensures Answered(AckStep(s, nr))
  {
    var t := Logged(s, AckSeen(nr)).(outstanding := Acked(s.outstanding, nr));
    LoggedAnswered(s, AckSeen(nr));
    assert Answered(t);
    if Readies(s.outstanding, nr) {
      if s.phase == Unregistering { RegisterAnswered(t); }
      else if s.phase == Registering { NotifyAnswered(t); }
    }
  }

  lemma RegisterAnswered(s: Sense)
    requires Answered(s)
    ensures Answered(EnterRegister(s))
  {
    LoggedAnswered(s, Sent(true, Batch(s.drawn, CHANNELS + 1)));
  }

  lemma BatchAnswered(s: Sense)
    requires Answered(s)
    ensures Answered(Begin(s)) && Answered(Registered(s))
  {
    LoggedAnswered(s, Sent(false, Batch(s.drawn, CHANNELS)));
    LoggedAnswered(s, Sent(true, Batch(s.drawn, CHANNELS + 1)));
  }

  lemma AnsweredStep(s: Sense, e: Event)
    requires Counted(s) && Answered(s)
    ensures Answered(Step(s, e))
  {
    match e
    case SetMode(want, cmd) => CommandAnswered(s, want, cmd);
    case Entered => BatchAnswered(s);
    case AckOf(nr) => AckAnswered(s, nr);
    case Startup => BatchAnswered(s);
    case _ =>
  }

  /** Over every run: the deferred answers go to the commands that changed the mode, first come first
      served, once each; a command that found the machine running waits for a later turn. */
  lemma AnsweredInOrder(s: Sense, es: seq<Event>)
    requires Fresh(s)
    ensures Counted(s)
    ensures var t := Run(s, es);
            && |t.cmds| <= |t.commands|
            && Deferred(t.log) == Wanting(t.commands[..|t.commands| - |t.cmds|])
            && (t.phase == Idle ==> |t.cmds| == t.overlaps)
  {
    forall t: Sense, e: Event | Counted(t) && Answered(t) ensures Answered(Step(t, e)) { AnsweredStep(t, e); }
    EveryRun(s, es, (t: Sense) => Answered(t));
  }

  // ---------------------------------------------------------------- availability

  predicate IsReference(name: string) { name == "R0V" || name == "R10V" }

  predicate AvailableFor(rs: seq<Range>, mode: Mode)
  {
    forall j :: 0 <= j < |rs| ==> (rs[j].avail <==> (IsReference(rs[j].name) <==> mode == REF))
  }

  /** Every range is available exactly when it belongs to the mode. */
  predicate Availability(cs: seq<Channel>, mode: Mode)
  {
    forall i :: 0 <= i < |cs| ==> AvailableFor(cs[i].ranges, mode)
  }

  function ModeOf(k: nat): Mode { if k % 2 == 1 then REF else AC }

  lemma ToggledAvailable(rs: seq<Range>, mode: Mode)
    requires AvailableFor(rs, mode)
    ensures AvailableFor(Toggled(rs), if mode == AC then REF else AC)
  {
  }

  ghost predicate Parity(s: Sense)
  {
    |s.channels| == CHANNELS && Availability(s.channels, ModeOf(s.toggles))
  }

  lemma ReconfiguredParity(cs: seq<Channel>, mode: Mode, k: nat)
    requires Availability(cs, ModeOf(k))
    ensures Availability(Reconfigured(cs, mode), ModeOf(k + 1))
  {
    forall i | 0 <= i < |cs| ensures AvailableFor(Reconfigured(cs, mode)[i].ranges, ModeOf(k + 1)) {
      ToggledAvailable(cs[i].ranges, ModeOf(k));
    }
  }

  lemma RangeCommandKeepsRanges(c: Channel, name: string, modeRead: bool, rangeSet: bool)
    ensures var d := RangeCommand(c, name, modeRead, rangeSet).0;
            d == c.(published := d.published)
  {
  }

  lemma AckParity(s: Sense, nr: nat)
    requires Counted(s) && Parity(s)
    ensures Parity(AckStep(s, nr))
  {
    ReconfiguredParity(s.channels, s.mode, s.toggles);
  }

  lemma RangeParity(s: Sense, i: nat, name: string, modeRead: bool, rangeSet: bool)
    requires Parity(s) && i < |s.channels|
    ensures Parity(s.(channels := s.channels[i := RangeCommand(s.channels[i], name, modeRead, rangeSet).0]))
  {
    RangeCommandKeepsRanges(s.channels[i], name, modeRead, rangeSet);
  }

  lemma ParityStep(s: Sense, e: Event)
    requires Counted(s) && Parity(s)
    ensures Parity(Step(s, e))
  {
    match e
    case AckOf(nr) => AckParity(s, nr);
    case SetRange(i, name, modeRead, rangeSet) =>
      if i < |s.channels| { RangeParity(s, i, name, modeRead, rangeSet); }
    case _ =>
  }

  lemma RunParity(s: Sense, es: seq<Event>)
    requires Counted(s) && Parity(s)
    ensures Parity(Run(s, es))
  {
    forall t: Sense, e: Event | Counted(t) && Parity(t) ensures Parity(Step(t, e)) { ParityStep(t, e); }
    EveryRun(s, es, (t: Sense) => Parity(t));
  }

  /** After any run a range is available as it was at first, flipped once per entry of the register state;
      and whenever the machine is idle the published mode is the mode, every command that came while it
      ran is still unanswered, and availability fits the mode exactly when the number of those is even. */
  lemma AvailabilityFitsIff(s: Sense, es: seq<Event>)
    requires Fresh(s)
    requires forall i :: 0 <= i < |s.channels| ==> s.channels[i].ranges != []
    ensures Counted(s)
    ensures var t := Run(s, es);
            && Availability(t.channels, ModeOf(t.toggles))
            && (t.phase == Idle ==>
                  && t.published == t.mode
                  && |t.cmds| == t.overlaps
                  && (Availability(t.channels, t.mode) <==> t.overlaps % 2 == 0))
  {
    RunParity(s, es);
    RunKeepsShape(s, es);
    FitsIff(Run(s, es));
  }

  lemma FitsIff(t: Sense)
    requires Counted(t) && Parity(t) && t.channels[0].ranges != []
    ensures t.phase == Idle ==> (Availability(t.channels, t.mode) <==> t.overlaps % 2 == 0)
  {
    var rs := t.channels[0].ranges;
    assert rs[0] in rs;
    assert AvailableFor(rs, ModeOf(t.toggles));
    assert Availability(t.channels, t.mode) ==> AvailableFor(rs, t.mode);
  }

  ghost predicate SameShape(a: seq<Channel>, b: seq<Channel>)
  {
    |a| == |b| && forall i :: 0 <= i < |a| ==>
      && |a[i].ranges| == |b[i].ranges|
      && forall j :: 0 <= j < |a[i].ranges| ==> a[i].ranges[j].name == b[i].ranges[j].name
  }

  lemma StepKeepsShape(s: Sense, e: Event)
    requires Counted(s)
    ensures SameShape(s.channels, Step(s, e).channels)
  {
    if e.SetRange? && e.channel < |s.channels| {
      RangeCommandKeepsRanges(s.channels[e.channel], e.name, e.modeRead, e.rangeSet);
    }
  }

  lemma RunKeepsShape(s: Sense, es: seq<Event>)
    requires Counted(s)
    ensures SameShape(s.channels, Run(s, es).channels)
  {
    forall t: Sense, e: Event | Counted(t) && SameShape(s.channels, t.channels)
      ensures SameShape(s.channels, Step(t, e).channels)
    {
      StepKeepsShape(t, e);
    }
    EveryRun(s, es, (t: Sense) => SameShape(s.channels, t.channels));
  }

  // ---------------------------------------------------------------- labels and channel modes

  ghost predicate Labelled(cs: seq<Channel>, mode: Mode)
  {
    forall i :: 0 <= i < |cs| ==> cs[i].description == Description(i, mode) && cs[i].unit == Unit(i, mode)
  }

  ghost predicate Moded(cs: seq<Channel>, mode: Mode)
  {
    forall i :: 0 <= i < |cs| ==> cs[i].mode == mode
  }

  function Other(mode: Mode): Mode { if mode == AC then REF else AC }

  /** How often the mode has changed since the last reconfiguration. */
  function ChangesSince(s: Sense): nat
  {
    s.late + if s.phase == Starting || s.phase == Unregistering then 1 else 0
  }

  /** The mode the channels were last configured for. */
  function ConfiguredMode(s: Sense): Mode
  {
    if ChangesSince(s) % 2 == 0 then s.mode else Other(s.mode)
  }

  ghost predicate ConfiguredFor(cs: seq<Channel>, mode: Mode)
  {
    |cs| == CHANNELS && Labelled(cs, mode) && Moded(cs, mode)
  }

  ghost predicate Configured(s: Sense) { ConfiguredFor(s.channels, ConfiguredMode(s)) }

  lemma ReconfiguredFor(cs: seq<Channel>, mode: Mode)
    requires |cs| == CHANNELS
    ensures ConfiguredFor(Reconfigured(cs, mode), mode)
  {
  }

  /** A mode command flips the mode and counts as one change, so what the channels were configured for
      stays what it was. */
  lemma CommandConfigured(s: Sense, want: Option<Mode>, cmd: Cmd)
    requires Configured(s)
    ensures Configured(ModeCommand(s, want, cmd))
  {
    assert ConfiguredMode(ModeCommand(s, want, cmd)) == ConfiguredMode(s);
  }

  lemma BeginConfigured(s: Sense)
    requires Configured(s)
    ensures Configured(Begin(s))
  {
    assert ConfiguredMode(Begin(s)) == ConfiguredMode(s);
  }

  lemma AckMode(s: Sense, nr: nat)
    requires Serving(s)
    ensures var t := AckStep(s, nr);
            || (t.channels == s.channels && ConfiguredMode(t) == ConfiguredMode(s))
            || (t.channels == Reconfigured(s.channels, s.mode) && ConfiguredMode(t) == s.mode)
  {
  }

  lemma RangeConfigured(s: Sense, i: nat, name: string, modeRead: bool, rangeSet: bool)
    requires Configured(s) && i < |s.channels|
    ensures Configured(s.(channels := s.channels[i := RangeCommand(s.channels[i], name, modeRead, rangeSet).0]))
  {
    RangeCommandKeepsRanges(s.channels[i], name, modeRead, rangeSet);
    ChannelReplaced(s.channels, i, RangeCommand(s.channels[i], name, modeRead, rangeSet).0, ConfiguredMode(s));
  }

  lemma ChannelReplaced(cs: seq<Channel>, i: nat, c: Channel, mode: Mode)
    requires ConfiguredFor(cs, mode) && i < |cs| && c == cs[i].(published := c.published)
    ensures ConfiguredFor(cs[i := c], mode)
  {
  }

  lemma AckConfigured(s: Sense, nr: nat)
    requires Serving(s) && Configured(s)
    ensures Configured(AckStep(s, nr))
  {
    AckMode(s, nr);
    ReconfiguredFor(s.channels, s.mode);
  }

  lemma ConfiguredStep(s: Sense, e: Event)
    requires Counted(s) && Configured(s)
    ensures Configured(Step(s, e))
  {
    match e
    case SetMode(want, cmd) => CommandConfigured(s, want, cmd);
    case Entered => BeginConfigured(s);
    case AckOf(nr) => AckConfigured(s, nr);
    case SetRange(i, name, modeRead, rangeSet) =>
      if i < |s.channels| { RangeConfigured(s, i, name, modeRead, rangeSet); }
    case Startup => assert ConfiguredMode(Step(s, e)) == ConfiguredMode(s);
    case Drawn(_) => assert ConfiguredMode(Step(s, e)) == ConfiguredMode(s);
  }

  lemma RunConfigured(s: Sense, es: seq<Event>)
    requires Counted(s) && Configured(s)
    ensures Configured(Run(s, es))
  {
    forall t: Sense, e: Event | Counted(t) && Configured(t) ensures Configured(Step(t, e)) { ConfiguredStep(t, e); }
    EveryRun(s, es, (t: Sense) => Configured(t));
  }

  /** Over every run: whenever the machine is idle, channel modes, units and descriptions fit the mode
      exactly when the number of commands that changed it since the last reconfiguration is even. */
  lemma ConfigurationFitsIff(s: Sense, es: seq<Event>)
    requires Fresh(s)
    ensures Counted(s)
    ensures var t := Run(s, es);
            t.phase == Idle ==>
              && (Moded(t.channels, t.mode) <==> t.late % 2 == 0)
              && (Labelled(t.channels, t.mode) <==> t.late % 2 == 0)
              && (t.late % 2 == 1 ==> Moded(t.channels, Other(t.mode)) && Labelled(t.channels, Other(t.mode)))
  {
    RunConfigured(s, es);
    var t := Run(s, es);
    if t.phase == Idle { OneConfiguration(t.channels, ConfiguredMode(t)); }
  }

  /** Channels configured for one mode are not configured for the other, in modes or in labels. */
  lemma OneConfiguration(cs: seq<Channel>, mode: Mode)
    requires ConfiguredFor(cs, mode)
    ensures !Moded(cs, Other(mode)) && !Labelled(cs, Other(mode))
  {
    assert VOLTAGE[0] != REFERENCE[0];
    assert cs[0].mode == mode && cs[0].description == Description(0, mode);
  }

  /** When mode commands come only while the machine is idle: whenever it is idle again, ranges, channel
      modes, units, descriptions and the published mode all fit the mode, and no command is unanswered. */
  lemma IdleMeansConsistent(s: Sense, es: seq<Event>)
    requires Fresh(s)
    ensures Counted(s)
    ensures var t := Run(s, es);
            t.overlaps == 0 && t.phase == Idle ==>
              && t.cmds == [] && t.published == t.mode
              && Availability(t.channels, t.mode) && Labelled(t.channels, t.mode) && Moded(t.channels, t.mode)
  {
    RunParity(s, es);
    RunConfigured(s, es);
    RestConsistent(Run(s, es));
  }

  lemma RestConsistent(t: Sense)
    requires Counted(t) && Parity(t) && Configured(t)
    ensures t.overlaps == 0 && t.phase == Idle ==>
              && t.cmds == [] && t.published == t.mode
              && Availability(t.channels, t.mode) && Labelled(t.channels, t.mode) && Moded(t.channels, t.mode)
  {
    ModesMatchRangesIff(t);
  }

  // ---------------------------------------------------------------- published ranges

  /** What holds of channel i at any moment of any run: the mode it was last configured for, the ranges
      made available by the toggles so far, and the two agree exactly when an even number of commands
      overlapped before the last reconfiguration. */
  lemma ChannelNow(s: Sense, es: seq<Event>, i: nat)
    requires Fresh(s) && i < CHANNELS
    ensures Counted(s)
    ensures var t := Run(s, es);
            && |t.channels| == CHANNELS && t.late <= t.overlaps
            && AvailableFor(t.channels[i].ranges, ModeOf(t.toggles))
            && (t.channels[i].mode == ModeOf(t.toggles) <==> (t.overlaps - t.late) % 2 == 0)
  {
    var t := Run(s, es);
    RunParity(s, es);
    RunConfigured(s, es);
    assert t.channels[i].mode == ConfiguredMode(t);
    ModesMatchRangesIff(t);
  }

  lemma ModesMatchRangesIff(t: Sense)
    requires Counted(t)
    ensures ConfiguredMode(t) == ModeOf(t.toggles) <==> (t.overlaps - t.late) % 2 == 0
  {
  }

  /** A range command acknowledged at any moment of a run without overlaps publishes exactly the range it
      named. */
  lemma AcknowledgedRangePublished(s: Sense, es: seq<Event>, i: nat, name: string, modeRead: bool, rangeSet: bool)
    requires Fresh(s) && i < CHANNELS
    ensures Counted(s)
    ensures var t := Run(s, es);
            t.overlaps == 0 ==>
              && |t.channels| == CHANNELS
              && var (c, reply) := RangeCommand(t.channels[i], name, modeRead, rangeSet);
                 c.published == if reply == Ack then name else t.channels[i].published
  {
    ChannelNow(s, es, i);
  }

  /** Every acknowledged command to this channel publishes the range it names. */
  ghost predicate PublishesAsNamed(c: Channel)
  {
    forall name, modeRead, rangeSet :: Acknowledged(c, name, modeRead, rangeSet) ==>
                                         RangeCommand(c, name, modeRead, rangeSet).0.published == name
  }

  predicate Acknowledged(c: Channel, name: string, modeRead: bool, rangeSet: bool)
  {
    RangeCommand(c, name, modeRead, rangeSet).1 == Ack
  }

  /** Over every run, overlaps included, and at any moment: acknowledged range commands publish what they
      name exactly when the channel measures AC or an even number of commands overlapped before the last
      reconfiguration. */
  lemma PublishesAsNamedIff(s: Sense, es: seq<Event>, i: nat, j: nat)
    requires Fresh(s) && i < CHANNELS && j < |s.channels[i].ranges| && !IsReference(s.channels[i].ranges[j].name)
    ensures Counted(s)
    ensures var t := Run(s, es);
            && |t.channels| == CHANNELS
            && (PublishesAsNamed(t.channels[i]) <==> t.channels[i].mode == AC || (t.overlaps - t.late) % 2 == 0)
  {
    var t := Run(s, es);
    ChannelNow(s, es, i);
    RunKeepsShape(s, es);
    if t.channels[i].mode == REF && ModeOf(t.toggles) == AC {
      CollapsedName(t.channels[i], j);
    } else {
      KeptNames(t.channels[i], ModeOf(t.toggles));
    }
  }

  lemma CollapsedName(c: Channel, j: nat)
    requires c.mode == REF && j < |c.ranges| && !IsReference(c.ranges[j].name) && AvailableFor(c.ranges, AC)
    ensures !PublishesAsNamed(c)
  {
    var name := c.ranges[j].name;
    var i := Find(c.ranges, name);
    assert i <= j && c.ranges[i].avail;
    assert Acknowledged(c, name, true, true);
    PublishedAsNamedIff(c, name, true, true);
  }

  lemma KeptNames(c: Channel, mode: Mode)
    requires AvailableFor(c.ranges, mode) && (c.mode == AC || mode == REF)
    ensures PublishesAsNamed(c)
  {
    forall name, modeRead, rangeSet | Acknowledged(c, name, modeRead, rangeSet)
      ensures RangeCommand(c, name, modeRead, rangeSet).0.published == name
    {
      PublishedAsNamedIff(c, name, modeRead, rangeSet);
    }
  }

  /** In any state whatever: an acknowledged command publishes the range it named exactly when the channel
      measures AC or the range is a reference range. */
  lemma PublishedAsNamedIff(c: Channel, name: string, modeRead: bool, rangeSet: bool)
    requires RangeCommand(c, name, modeRead, rangeSet).1 == Ack
    ensures RangeCommand(c, name, modeRead, rangeSet).0.published == name <==> c.mode == AC || IsReference(name)
  {
  }

  function Acks(nrs: seq<nat>): (es: seq<Event>)
    ensures |es| == |nrs|
  {
    if nrs == [] then [] else [AckOf(nrs[0])] + Acks(nrs[1..])
  }

  /** A run without the startup registration. */
  predicate WithoutStartup(es: seq<Event>) { forall i :: 0 <= i < |es| ==> !es[i].Startup? }

  lemma {:induction false} AcksOnly(nrs: seq<nat>)
    ensures WithoutStartup(Acks(nrs))
  {
    if nrs != [] { AcksOnly(nrs[1..]); }
  }

  /** Acknowledging everything outstanding, one by one, completes the batch and nothing else. */
  lemma {:induction false} BatchCompletes(s: Sense, rest: seq<Event>)
    requires Counted(s) && s.outstanding != [] && (s.phase == Unregistering || s.phase == Registering)
    ensures var nr := s.outstanding[|s.outstanding| - 1];
            exists t :: && Counted(t) && t == s.(outstanding := [nr], log := t.log)
                        && Run(s, Acks(s.outstanding) + rest) == Run(AckStep(t, nr), rest)
    decreases |s.outstanding|
  {
    var list := s.outstanding;
    var first := AckOf(list[0]);
    assert Acks(list) + rest == [first] + (Acks(list[1..]) + rest);
    OneStep(s, first, Acks(list[1..]) + rest);
    if |list| == 1 {
      assert Acks(list[1..]) + rest == rest && list == [list[0]];
      assert s == s.(outstanding := [list[0]], log := s.log);
    } else {
      OneAcked(s);
      BatchCompletes(Step(s, first), rest);
    }
  }

  /** An acknowledgement that is not the last one is taken off the list. */
  lemma OneAcked(s: Sense)
    requires Counted(s) && |s.outstanding| > 1
    ensures AckStep(s, s.outstanding[0]) == Logged(s, AckSeen(s.outstanding[0])).(outstanding := s.outstanding[1..])
  {
  }

  /** The machine can always finish: acknowledging what it sends takes it from unregistering to idle. */
  lemma TurnByAcks(s: Sense)
    requires Counted(s) && s.phase == Unregistering && s.outstanding != []
    ensures var t := Run(s, Acks(s.outstanding) + Acks(Batch(s.drawn, CHANNELS + 1)));
            t.phase == Idle && t.mode == s.mode && t.overlaps == s.overlaps && t.late == 0
  {
    var u := FirstHalf(s, Acks(Batch(s.drawn, CHANNELS + 1)));
    FromRegistering(u);
  }

  lemma TurnCompletes(s: Sense) returns (es: seq<Event>)
    requires Counted(s) && s.phase == Unregistering && s.outstanding != []
    ensures var t := Run(s, es);
            t.phase == Idle && t.mode == s.mode && t.overlaps == s.overlaps && t.late == 0
    ensures WithoutStartup(es)
  {
    es := Acks(s.outstanding) + Acks(Batch(s.drawn, CHANNELS + 1));
    TurnByAcks(s);
    AcksOnly(s.outstanding);
    AcksOnly(Batch(s.drawn, CHANNELS + 1));
  }

  /** Acknowledging the unregister batch takes the machine to registering. */
  lemma FirstHalf(s: Sense, rest: seq<Event>) returns (u: Sense)
    requires Counted(s) && s.phase == Unregistering && s.outstanding != []
    ensures Counted(u) && u.phase == Registering && u.outstanding == Batch(s.drawn, CHANNELS + 1)
    ensures u.mode == s.mode && u.overlaps == s.overlaps && u.late == 0
    ensures Run(s, Acks(s.outstanding) + rest) == Run(u, rest)
  {
    BatchCompletes(s, rest);
    var nr := s.outstanding[|s.outstanding| - 1];
    var t :| Counted(t) && t == s.(outstanding := [nr], log := t.log)
             && Run(s, Acks(s.outstanding) + rest) == Run(AckStep(t, nr), rest);
    u := AckStep(t, nr);
    CountedStep(t, AckOf(nr));
    LastAckRegisters(t, nr);
  }

  lemma LastAckRegisters(t: Sense, nr: nat)
    requires Counted(t) && t.phase == Unregistering && t.outstanding == [nr]
    ensures var u := AckStep(t, nr);
            && u.phase == Registering && u.outstanding == Batch(t.drawn, CHANNELS + 1)
            && u.mode == t.mode && u.overlaps == t.overlaps && u.late == 0
  {
  }

  lemma FromRegistering(s: Sense)
    requires Counted(s) && s.phase == Registering && s.outstanding != []
    ensures var t := Run(s, Acks(s.outstanding));
            t.phase == Idle && t.mode == s.mode && t.overlaps == s.overlaps && t.late == s.late
  {
    BatchCompletes(s, []);
    assert Acks(s.outstanding) + [] == Acks(s.outstanding);
    var nr := s.outstanding[|s.outstanding| - 1];
    var t :| Counted(t) && t == s.(outstanding := [nr], log := t.log)
             && Run(s, Acks(s.outstanding) + []) == Run(AckStep(t, nr), []);
    CountedStep(t, AckOf(nr));
  }

  /** From rest, a turn to the other mode. */
  lemma OneTurn(s: Sense) returns (es: seq<Event>)
    requires Counted(s) && s.phase == Idle
    ensures var t := Run(s, es);
            t.phase == Idle && t.mode == Other(s.mode) && t.overlaps == s.overlaps && t.late == 0
  {
    var there := SetMode(Some(Other(s.mode)), Cmd(1, true));
    CountedStep(s, there);
    var s2 := Step(Step(s, there), Entered);
    CountedStep(Step(s, there), Entered);
    var tail := TurnCompletes(s2);
    es := [there] + ([Entered] + tail);
    OneStep(Step(s, there), Entered, tail);
    OneStep(s, there, [Entered] + tail);
  }

  /** From rest, to the other mode and back before the machine has begun. */
  lemma OverlappedTurn(s: Sense) returns (es: seq<Event>)
    requires Counted(s) && s.phase == Idle
    ensures var t := Run(s, es);
            t.phase == Idle && t.mode == s.mode && t.overlaps == s.overlaps + 1 && t.late == 0
  {
    var there, back := SetMode(Some(Other(s.mode)), Cmd(2, true)), SetMode(Some(s.mode), Cmd(3, true));
    CountedStep(s, there);
    CountedStep(Step(s, there), back);
    var s3 := ThreeSteps(s, there, back, Entered);
    var tail := TurnCompletes(s3);
    es := [there] + ([back] + ([Entered] + tail));
    RunThree(s, there, back, Entered, tail);
  }

  /** A run with an overlap that leaves the machine idle: to REF and back before the machine has begun. The
      mode is AC, the reference ranges are the available ones, and a command stays unanswered. */
  lemma OverlapMisleads(s: Sense) returns (es: seq<Event>)
    requires Fresh(s) && forall i :: 0 <= i < |s.channels| ==> s.channels[i].ranges != []
    ensures Counted(s)
    ensures var t := Run(s, es);
            t.phase == Idle && t.mode == AC && |t.cmds| == 1 && !Availability(t.channels, AC)
  {
    es := OverlappedTurn(s);
    AvailabilityFitsIff(s, es);
  }

  /** A run with two overlaps after which availability fits and nothing else does: to REF, back while the
      channels are being unregistered, and to REF again while they are being registered. The mode and the
      published mode are REF, every channel still has mode AC and the labels of AC. */
  lemma LateCommandMisleads(s: Sense) returns (es: seq<Event>)
    requires Fresh(s) && forall i :: 0 <= i < |s.channels| ==> s.channels[i].ranges != []
    ensures Counted(s)
    ensures var t := Run(s, es);
            && t.phase == Idle && t.mode == t.published == REF && Availability(t.channels, REF)
            && Moded(t.channels, AC) && Labelled(t.channels, AC) && !Labelled(t.channels, REF)
  {
    var there, back := SetMode(Some(REF), Cmd(1, true)), SetMode(Some(AC), Cmd(2, true));
    CountedStep(s, there);
    CountedStep(Step(s, there), Entered);
    var s3 := ThreeSteps(s, there, Entered, back);
    var tail := LateTurn(s3);
    es := [there] + ([Entered] + ([back] + tail));
    RunThree(s, there, Entered, back, tail);
    AvailabilityFitsIff(s, es);
    ConfigurationFitsIff(s, es);
  }

  /** A turn for AC during whose second half REF is wanted. */
  lemma LateTurn(s: Sense) returns (es: seq<Event>)
    requires Counted(s) && s.phase == Unregistering && s.outstanding != [] && s.mode == AC
    ensures var t := Run(s, es);
            t.phase == Idle && t.mode == REF && t.overlaps == s.overlaps + 1 && t.late == 1
  {
    var again := SetMode(Some(REF), Cmd(3, true));
    var tail := Acks(Batch(s.drawn, CHANNELS + 1));
    var u := FirstHalf(s, [again] + tail);
    OneStep(u, again, tail);
    FromRegistering(Step(u, again));
    es := Acks(s.outstanding) + ([again] + tail);
  }

  /** A run with one overlap after which an acknowledged command publishes another range than it names: to
      REF, and at rest there to AC and back before the machine begins. The mode is REF, but the ranges of AC
      are the available ones. */
  lemma OverlapCollapsesName(s: Sense, i: nat, j: nat) returns (es: seq<Event>)
    requires Fresh(s) && i < CHANNELS && j < |s.channels[i].ranges| && !IsReference(s.channels[i].ranges[j].name)
    ensures Counted(s)
    ensures var t := Run(s, es);
            t.phase == Idle && t.mode == REF && |t.channels| == CHANNELS && !PublishesAsNamed(t.channels[i])
  {
    var first := OneTurn(s);
    var second := OverlappedTurn(Run(s, first));
    es := first + second;
    RunAppend(s, first, second);
    ConfigurationFitsIff(s, es);
    PublishesAsNamedIff(s, es, i, j);
  }

  lemma {:induction false} RunAppend(s: Sense, a: seq<Event>, b: seq<Event>)
    requires Counted(s)
    ensures Run(s, a + b) == Run(Run(s, a), b)
    decreases |a|
  {
    if a == [] {
      assert a + b == b;
    } else {
      CountedStep(s, a[0]);
      assert (a + b)[1..] == a[1..] + b;
      RunAppend(Step(s, a[0]), a[1..], b);
    }
  }

  lemma ThreeSteps(s: Sense, a: Event, b: Event, c: Event) returns (t: Sense)
    requires Counted(s) && Counted(Step(s, a)) && Counted(Step(Step(s, a), b))
    ensures t == Step(Step(Step(s, a), b), c) && Counted(t)
  {
    t := Step(Step(Step(s, a), b), c);
    CountedStep(Step(Step(s, a), b), c);
  }

  lemma RunThree(s: Sense, a: Event, b: Event, c: Event, rest: seq<Event>)
    requires Counted(s) && Counted(Step(s, a)) && Counted(Step(Step(s, a), b))
    ensures Counted(Step(Step(Step(s, a), b), c))
    ensures Run(s, [a] + ([b] + ([c] + rest))) == Run(Step(Step(Step(s, a), b), c), rest)
  {
    OneStep(Step(Step(s, a), b), c, rest);
    OneStep(Step(s, a), b, [c] + rest);
    OneStep(s, a, [b] + ([c] + rest));
  }

  lemma OneStep(s: Sense, e: Event, rest: seq<Event>)
    requires Counted(s)
    ensures Counted(Step(s, e)) && Run(s, [e] + rest) == Run(Step(s, e), rest)
  {
    CountedStep(s, e);
    assert ([e] + rest)[1..] == rest;
  }
}
