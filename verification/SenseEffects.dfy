/** What the sense interface answers, labels and publishes, over every run and in the texts themselves. */
module SenseEffects {
  import opened Resource
  import opened SenseMode
  import opened SenseModeRuns
  import opened SenseModeSafety
  import opened Wrappers

  // ---------------------------------------------------------------- range commands

  /** The first range of this name exists and is available. */
  ghost predicate Offers(c: Channel, name: string)
  {
    exists i :: 0 <= i < |c.ranges| && c.ranges[i].name == name && c.ranges[i].avail
                && forall j :: 0 <= j < i ==> c.ranges[j].name != name
  }

  lemma OffersFound(c: Channel, name: string)
    ensures Offers(c, name) <==> Find(c.ranges, name) < |c.ranges| && c.ranges[Find(c.ranges, name)].avail
  {
    if i :| 0 <= i < |c.ranges| && c.ranges[i].name == name && c.ranges[i].avail
            && forall j :: 0 <= j < i ==> c.ranges[j].name != name
    {
      FindIs(c.ranges, name, i);
    }
  }

  /** Which range commands are acknowledged, refused and failed, in any state. */
  lemma ReplyIff(c: Channel, name: string, modeRead: bool, rangeSet: bool)
    ensures var reply := RangeCommand(c, name, modeRead, rangeSet).1;
            && (reply == Ack <==> modeRead && Offers(c, name) && (c.mode == AC ==> rangeSet))
            && (reply == ErrExec <==> !modeRead || (Offers(c, name) && c.mode == AC && !rangeSet))
            && (reply == Nak <==> modeRead && !Offers(c, name))
  {
    OffersFound(c, name);
  }

  /** What a range command leaves: published is the name in AC, one of the two reference ranges in REF, and
      after anything but an acknowledgement what it was. Nothing else of the channel changes. */
  lemma CommandPublishes(c: Channel, name: string, modeRead: bool, rangeSet: bool)
    ensures var (d, reply) := RangeCommand(c, name, modeRead, rangeSet);
            && d == c.(published := d.published)
            && (reply != Ack ==> d.published == c.published)
            && (reply == Ack && c.mode == AC ==> d.published == name)
            && (reply == Ack && c.mode == REF ==> d.published == if name == "R0V" then "R0V" else "R10V")
  {
  }

  /** What the event does: a command to an offered range is carried out, any other leaves what is published. */
  lemma RangeEventPublishes(s: Sense, i: nat, name: string, modeRead: bool, rangeSet: bool)
    requires Counted(s) && i < |s.channels|
    ensures var c, t := s.channels[i], Step(s, SetRange(i, name, modeRead, rangeSet));
            && |t.channels| == |s.channels|
            && t.channels[i].published ==
               (if !(modeRead && Offers(c, name) && (c.mode == AC ==> rangeSet)) then c.published
                else if c.mode == AC then name else if name == "R0V" then "R0V" else "R10V")
            && forall k :: 0 <= k < |s.channels| && k != i ==> t.channels[k] == s.channels[k]
  {
    ReplyIff(s.channels[i], name, modeRead, rangeSet);
    CommandPublishes(s.channels[i], name, modeRead, rangeSet);
  }

  /** Numbers other users take in the meantime are not in the interface's next batch. */
  lemma OthersNumbersApart(s: Sense, count: nat, nr: nat)
    requires Counted(s) && count < 0xFFFF_FFF0 && nr in Batch(s.drawn, count)
    ensures nr !in Registered(Step(s, Drawn(count))).outstanding
  {
    BatchesApart(s.drawn, count, s.drawn + count, CHANNELS + 1, nr);
  }

  /** At rest without overlaps, for every channel: a command naming a range of the list is acknowledged
      exactly when the range belongs to the mode and the controller went along. */
  lemma AcknowledgedAtRestIff(s: Sense, es: seq<Event>, i: nat, name: string, modeRead: bool, rangeSet: bool)
    requires Fresh(s) && i < CHANNELS
    ensures Counted(s)
    ensures var t := Run(s, es);
            t.overlaps == 0 && t.phase == Idle ==>
              && |t.channels| == CHANNELS
              && var reply := RangeCommand(t.channels[i], name, modeRead, rangeSet).1;
                 (reply == Ack <==>
                    && modeRead && Lists(t.channels[i].ranges, name)
                    && (IsReference(name) <==> t.mode == REF)
                    && (t.mode == AC ==> rangeSet))
  {
    var t := Run(s, es);
    if t.overlaps == 0 && t.phase == Idle {
      IdleMeansConsistent(s, es);
      RunKeepsShape(s, es);
      ReplyIff(t.channels[i], name, modeRead, rangeSet);
      OffersOwn(t.channels[i], name, t.mode);
    }
  }

  lemma OffersOwn(c: Channel, name: string, mode: Mode)
    requires AvailableFor(c.ranges, mode)
    ensures Offers(c, name) <==> Lists(c.ranges, name) && (IsReference(name) <==> mode == REF)
  {
    OffersFound(c, name);
    if j :| 0 <= j < |c.ranges| && c.ranges[j].name == name {
      assert Find(c.ranges, name) < |c.ranges|;
    }
  }

  // ---------------------------------------------------------------- labels

  /** Description and unit of channel i in a mode, in words. */
  predicate InWords(c: Channel, i: nat, mode: Mode)
  {
    match mode
    case REF => c.description == "Reference channel 0..10V DC" && c.unit == "V"
    case AC =>
      if i == 0 || i == 1 || i == 2 then c.description == "Measuring channel 0..480V AC" && c.unit == "V"
      else c.description == "Measuring channel 0..160A AC" && c.unit == "A"
  }

  /** At any moment of any run, overlaps included, every channel bears the labels of the mode it has; and at
      rest that is the mode of the interface, unless an odd number of commands came too late. */
  lemma LabelsInWords(s: Sense, es: seq<Event>, i: nat)
    requires Fresh(s) && i < CHANNELS
    ensures Counted(s)
    ensures var t := Run(s, es);
            && |t.channels| == CHANNELS
            && InWords(t.channels[i], i, t.channels[i].mode)
            && (t.phase == Idle && t.late % 2 == 0 ==> InWords(t.channels[i], i, t.mode))
  {
    RunConfigured(s, es);
  }

  // ---------------------------------------------------------------- what only a range command changes

  /** No event but a range command to a channel changes what it publishes, and none changes its name or the
      names and codes of its ranges. */
  lemma OnlyRangeCommandsPublish(s: Sense, e: Event, i: nat)
    requires Counted(s) && i < |s.channels|
    ensures var t := Step(s, e);
            && |t.channels| == |s.channels|
            && t.channels[i].name == s.channels[i].name
            && |t.channels[i].ranges| == |s.channels[i].ranges|
            && (forall j :: 0 <= j < |s.channels[i].ranges| ==>
                  && t.channels[i].ranges[j].name == s.channels[i].ranges[j].name
                  && t.channels[i].ranges[j].selCode == s.channels[i].ranges[j].selCode)
            && (!(e.SetRange? && e.channel == i) ==> t.channels[i].published == s.channels[i].published)
  {
  }

  // ---------------------------------------------------------------- answers to mode commands

  /** What is answered at once: a command that names the current mode with an acknowledgement, one that names
      no mode with a refusal if it wants an answer, and one that changes the mode not at all. */
  lemma AnsweredAtOnceIff(s: Sense, want: Option<Mode>, cmd: Cmd)
    ensures var t := ModeCommand(s, want, cmd);
            && (t.log == s.log + [Answer(cmd.id, true, false)] <==> want == Some(s.mode))
            && (t.log == s.log + [Answer(cmd.id, false, false)] <==> want == None && cmd.withOutput)
            && (t.log == s.log <==> (want == None && !cmd.withOutput) || (want.Some? && want.value != s.mode))
            && t.mode == (if want.Some? then want.value else s.mode)
            && t.cmds == (if want.Some? && want.value != s.mode then s.cmds + [cmd] else s.cmds)
  {
    assert s.log + [Answer(cmd.id, true, false)] != s.log + [Answer(cmd.id, false, false)] by {
      assert (s.log + [Answer(cmd.id, true, false)])[|s.log|] != (s.log + [Answer(cmd.id, false, false)])[|s.log|];
    }
  }

  /** How many of the commands named a mode. */
  function NamingMode(es: seq<Event>): nat
  {
    if es == [] then 0 else (if es[0].SetMode? && es[0].want.Some? then 1 else 0) + NamingMode(es[1..])
  }

  /** How many wanted an answer and named no mode. */
  function NamingNone(es: seq<Event>): nat
  {
    if es == [] then 0
    else (if es[0].SetMode? && es[0].want.None? && es[0].cmd.withOutput then 1 else 0) + NamingNone(es[1..])
  }

  /** How many answers of one kind the log has. */
  function Answers(log: seq<Entry>, ack: bool, deferred: bool): nat
  {
    if log == [] then 0
    else
      var k := |log| - 1;
      var e := log[k];
      Answers(log[..k], ack, deferred) + if e.Answer? && e.ack == ack && e.deferred == deferred then 1 else 0
  }

  lemma AnswersMore(log: seq<Entry>, e: Entry, ack: bool, deferred: bool)
    ensures Answers(log + [e], ack, deferred) ==
            Answers(log, ack, deferred) + if e.Answer? && e.ack == ack && e.deferred == deferred then 1 else 0
  {
    assert (log + [e])[..|log|] == log;
  }

  /** The answers given at once are the same, and so are the deferred refusals. */
  ghost predicate SameAnswers(a: seq<Entry>, b: seq<Entry>)
  {
    && Answers(a, true, false) == Answers(b, true, false)
    && Answers(a, false, false) == Answers(b, false, false)
    && Answers(a, false, true) == Answers(b, false, true)
  }

  lemma OtherEntry(log: seq<Entry>, e: Entry)
    requires !e.Answer? || (e.ack && e.deferred)
    ensures SameAnswers(log + [e], log)
  {
    AnswersMore(log, e, true, false);
    AnswersMore(log, e, false, false);
    AnswersMore(log, e, false, true);
  }

  lemma AckAnswers(s: Sense, nr: nat)
    requires Counted(s)
    ensures SameAnswers(AckStep(s, nr).log, s.log)
  {
    var t := Logged(s, AckSeen(nr)).(outstanding := Acked(s.outstanding, nr));
    OtherEntry(s.log, AckSeen(nr));
    OtherEntry(t.log, Sent(true, Batch(t.drawn, CHANNELS + 1)));
    OtherEntry(t.log, Published(t.mode));
    if t.cmds != [] { OtherEntry(t.log + [Published(t.mode)], Answer(t.cmds[0].id, true, true)); }
  }

  lemma CommandAnswers(s: Sense, want: Option<Mode>, cmd: Cmd)
    ensures var t, e := ModeCommand(s, want, cmd), SetMode(want, cmd);
            && Answers(t.log, true, false) + |t.commands|
               == Answers(s.log, true, false) + |s.commands| + NamingMode([e])
            && Answers(t.log, false, false) == Answers(s.log, false, false) + NamingNone([e])
            && Answers(t.log, false, true) == Answers(s.log, false, true)
  {
    var a := Answer(cmd.id, want.Some?, false);
    assert NamingMode([SetMode(want, cmd)][1..]) == 0 && NamingNone([SetMode(want, cmd)][1..]) == 0;
    AnswersMore(s.log, a, true, false);
    AnswersMore(s.log, a, false, false);
    AnswersMore(s.log, a, false, true);
  }

  /** How a step changes the answers: each command that names a mode is answered at once or queued. */
  lemma StepAnswers(s: Sense, e: Event)
    requires Counted(s)
    ensures var t := Step(s, e);
            && Answers(t.log, true, false) + |t.commands|
               == Answers(s.log, true, false) + |s.commands| + NamingMode([e])
            && Answers(t.log, false, false) == Answers(s.log, false, false) + NamingNone([e])
            && Answers(t.log, false, true) == Answers(s.log, false, true)
  {
    match e
    case SetMode(want, cmd) => CommandAnswers(s, want, cmd);
    case AckOf(nr) =>
      AckAnswers(s, nr);
      NotACommand(s, e);
    case Entered =>
      OtherEntry(s.log, Sent(false, Batch(s.drawn, CHANNELS)));
      NotACommand(s, e);
    case Startup =>
      OtherEntry(s.log, Sent(true, Batch(s.drawn, CHANNELS + 1)));
      NotACommand(s, e);
    case _ => NotACommand(s, e);
  }

  lemma NotACommand(s: Sense, e: Event)
    requires Counted(s) && !e.SetMode?
    ensures Step(s, e).commands == s.commands && NamingMode([e]) == NamingNone([e]) == 0
  {
    assert [e][1..] == [];
  }

  lemma NamingFirst(es: seq<Event>)
    requires es != []
    ensures NamingMode(es) == NamingMode([es[0]]) + NamingMode(es[1..])
    ensures NamingNone(es) == NamingNone([es[0]]) + NamingNone(es[1..])
  {
    assert [es[0]][1..] == [];
    assert NamingMode([]) == 0 && NamingNone([]) == 0;
  }

  lemma {:induction false} RunAnswers(s: Sense, es: seq<Event>)
    requires Counted(s)
    ensures var t := Run(s, es);
            && Answers(t.log, true, false) + |t.commands|
               == Answers(s.log, true, false) + |s.commands| + NamingMode(es)
            && Answers(t.log, false, false) == Answers(s.log, false, false) + NamingNone(es)
            && Answers(t.log, false, true) == Answers(s.log, false, true)
    decreases |es|
  {
    if es != [] {
      CountedStep(s, es[0]);
      StepAnswers(s, es[0]);
      NamingFirst(es);
      RunAnswers(Step(s, es[0]), es[1..]);
    }
  }

  /** Over every run: every command that names a mode is acknowledged at once or taken for a change, every
      one that names none and wants an answer is refused at once, and no deferred answer is a refusal. */
  lemma EveryCommandAnsweredOrTaken(s: Sense, es: seq<Event>)
    requires Fresh(s)
    ensures Counted(s)
    ensures var t := Run(s, es);
            && Answers(t.log, true, false) + |t.commands| == NamingMode(es)
            && Answers(t.log, false, false) == NamingNone(es)
            && Answers(t.log, false, true) == 0
  {
    RunAnswers(s, es);
  }
}
