/**
 Changing the measuring mode. A mode command starts a machine that unregisters the channels, waits for
 all acknowledgements, reconfigures, registers again, waits again, and only then publishes the mode and
 answers the command. The steps are functions on the interface's state; the interface object performs
 them in place.
 */
module SenseMode {
  import opened Resource
  import opened Wrappers

  datatype Mode = AC | REF
  datatype Phase = Idle | Starting | Unregistering | Registering

  datatype Range = Range(name: string, selCode: nat, avail: bool)
  datatype Channel = Channel(name: string, description: string, unit: string, mode: Mode, ranges: seq<Range>,
                             published: string)
  datatype Cmd = Cmd(id: nat, withOutput: bool)

  /** What the outside sees, in order: batches of register or unregister commands, acknowledgements, the
      mode being published, answers to mode commands. */
  datatype Entry =
    | Sent(registering: bool, nrs: seq<nat>)
    | AckSeen(nr: nat)
    | Published(mode: Mode)
    | Answer(id: nat, ack: bool, deferred: bool)

  /** `drawn` counts the message numbers handed out. The fields after `published` are history: the log, where
      the current batches stand in it, how often availability was toggled, the commands that changed the
      mode, how many of these found the machine running, and how many since the last reconfiguration. */
  datatype Sense = Sense(mode: Mode, phase: Phase, outstanding: seq<nat>, drawn: nat, cmds: seq<Cmd>,
                         channels: seq<Channel>, published: Mode,
                         log: seq<Entry>, unregAt: nat, regAt: nat, toggles: nat, commands: seq<Cmd>,
                         overlaps: nat, late: nat)

  const CHANNELS: nat := 6

  const VOLTAGE := "Measuring channel 0..480V AC"
  const CURRENT := "Measuring channel 0..160A AC"
  const REFERENCE := "Reference channel 0..10V DC"

  // ---------------------------------------------------------------- the machine

  /** The next k message numbers. */
  function Batch(drawn: nat, k: nat): (b: seq<nat>)
    ensures |b| == k
  {
    if k == 0 then [] else Batch(drawn, k - 1) + [NrAt(drawn + k)]
  }

  function Logged(s: Sense, e: Entry): Sense { s.(log := s.log + [e]) }

  /** Unregisters the six channels. Whatever was outstanding before is forgotten. */
  function EnterUnregister(s: Sense): Sense
  {
    var b := Batch(s.drawn, CHANNELS);
    Logged(s, Sent(false, b)).(phase := Unregistering, outstanding := b, drawn := s.drawn + CHANNELS,
                               unregAt := |s.log|)
  }

  function Toggled(rs: seq<Range>): (ts: seq<Range>)
    ensures |ts| == |rs| && forall j :: 0 <= j < |rs| ==> ts[j] == rs[j].(avail := !rs[j].avail)
  {
    seq(|rs|, j requires 0 <= j < |rs| => rs[j].(avail := !rs[j].avail))
  }

  function Description(i: nat, mode: Mode): string
  {
    if mode == REF then REFERENCE else if i < 3 then VOLTAGE else CURRENT
  }

  function Unit(i: nat, mode: Mode): string
  {
    if mode == REF || i < 3 then "V" else "A"
  }

  /** Channel i, reconfigured. */
  function Rebuilt(c: Channel, i: nat, mode: Mode): Channel
  {
    Channel(c.name, Description(i, mode), Unit(i, mode), mode, Toggled(c.ranges), c.published)
  }

  function Reconfigured(cs: seq<Channel>, mode: Mode): (ds: seq<Channel>)
    ensures |ds| == |cs| && forall i :: 0 <= i < |cs| ==> ds[i] == Rebuilt(cs[i], i, mode)
  {
    seq(|cs|, i requires 0 <= i < |cs| => Rebuilt(cs[i], i, mode))
  }

  /** Registers the channels and the mode switch. Whatever was outstanding before is forgotten. */
  function Registered(s: Sense): Sense
  {
    var b := Batch(s.drawn, CHANNELS + 1);
    Logged(s, Sent(true, b)).(outstanding := b, drawn := s.drawn + CHANNELS + 1)
  }

  /** Reconfigures for the mode wanted now and registers. */
  function EnterRegister(s: Sense): Sense
  {
    Registered(s).(phase := Registering, channels := Reconfigured(s.channels, s.mode), toggles := s.toggles + 1,
                   late := 0, regAt := |s.log|)
  }

  /** Publishes the mode and answers the oldest command, if it wants an answer. The machine stops. */
  function EnterNotify(s: Sense): Sense
    requires s.cmds != []
  {
    var t := Logged(s, Published(s.mode)).(published := s.mode, phase := Idle, cmds := s.cmds[1..]);
    if s.cmds[0].withOutput then Logged(t, Answer(s.cmds[0].id, true, true)) else t
  }

  // ---------------------------------------------------------------- events

  /** `want` is the mode named, if it names one. A running machine ignores the order to start. */
  function ModeCommand(s: Sense, want: Option<Mode>, cmd: Cmd): Sense
  {
    if want.None? then if cmd.withOutput then Logged(s, Answer(cmd.id, false, false)) else s
    else if want.value == s.mode then Logged(s, Answer(cmd.id, true, false))
    else
      s.(mode := want.value, cmds := s.cmds + [cmd], commands := s.commands + [cmd],
         phase := if s.phase == Idle then Starting else s.phase,
         overlaps := if s.phase == Idle then s.overlaps else s.overlaps + 1,
         late := if s.phase == Idle then s.late else s.late + 1)
  }

  /** The started machine enters its first state from the event loop. */
  function Begin(s: Sense): Sense
  {
    if s.phase == Starting then EnterUnregister(s) else s
  }

  function AckStep(s: Sense, nr: nat): Sense
    requires Serving(s)
  {
    var t := Logged(s, AckSeen(nr)).(outstanding := Acked(s.outstanding, nr));
    if !Readies(s.outstanding, nr) then t
    else
      match s.phase
      case Unregistering => EnterRegister(t)
      case Registering => EnterNotify(t)
      case _ => t
  }

  /** A running machine has a command to answer. */
  predicate Serving(s: Sense) { s.phase != Idle ==> s.cmds != [] }

  datatype Reply = Ack | Nak | ErrExec

  function Find(rs: seq<Range>, name: string): (i: nat)
    ensures i <= |rs|
    ensures i < |rs| ==> rs[i].name == name
    ensures forall j :: 0 <= j < i ==> rs[j].name != name
  {
    FirstIndex(rs, (r: Range) => r.name == name)
  }

  /** A range command to one channel. `modeRead` and `rangeSet` are the controller's answers. */
  function RangeCommand(c: Channel, name: string, modeRead: bool, rangeSet: bool): (Channel, Reply)
  {
    var i := Find(c.ranges, name);
    if !modeRead then (c, ErrExec)
    else if i == |c.ranges| || !c.ranges[i].avail then (c, Nak)
    else if c.mode == AC then
      if rangeSet then (c.(published := name), Ack) else (c, ErrExec)
    else (c.(published := if c.ranges[i].name == "R0V" then "R0V" else "R10V"), Ack)
  }

  /** Everything that can happen to the interface. `Startup` is the server registering its resources, once it
      is connected to the resource manager; `Drawn` is other users taking numbers from the counter. */
  datatype Event =
    | SetMode(want: Option<Mode>, cmd: Cmd)
    | Entered
    | AckOf(nr: nat)
    | SetRange(channel: nat, name: string, modeRead: bool, rangeSet: bool)
    | Startup
    | Drawn(count: nat)

  function Step(s: Sense, e: Event): Sense
    requires Serving(s)
  {
    match e
    case SetMode(want, cmd) => ModeCommand(s, want, cmd)
    case Entered => Begin(s)
    case AckOf(nr) => AckStep(s, nr)
    case SetRange(i, name, modeRead, rangeSet) =>
      if i < |s.channels|
      then s.(channels := s.channels[i := RangeCommand(s.channels[i], name, modeRead, rangeSet).0]) else s
    case Startup => Registered(s)
    case Drawn(count) => s.(drawn := s.drawn + count)
  }

  // ---------------------------------------------------------------- the interface object

  class SenseInterface {
    var mode: Mode
    var phase: Phase
    var msgNrList: seq<nat>
    var counter: MsgCounter
    var cmds: seq<Cmd>
    var channels: seq<Channel>
    var publishedMode: Mode
    ghost var log: seq<Entry>
    ghost var unregAt: nat
    ghost var regAt: nat
    ghost var toggles: nat
    ghost var commands: seq<Cmd>
    ghost var overlaps: nat
    ghost var late: nat

    ghost predicate Valid()
      reads this, counter
    {
      counter.Valid() && |channels| == CHANNELS && Serving(State())
    }

    ghost function State(): Sense
      reads this, counter
    {
      Sense(mode, phase, msgNrList, counter.drawn, cmds, channels, publishedMode, log, unregAt, regAt, toggles,
            commands, overlaps, late)
    }

    constructor (counter: MsgCounter, channels: seq<Channel>)
      requires counter.Valid() && |channels| == CHANNELS
      ensures Valid() && this.counter == counter
      ensures State() == Sense(AC, Idle, [], counter.drawn, [], channels, AC, [], 0, 0, 0, [], 0, 0)
    {
      mode, phase, msgNrList, cmds, publishedMode := AC, Idle, [], [], AC;
      this.counter, this.channels := counter, channels;
      log, unregAt, regAt, toggles, commands, overlaps, late := [], 0, 0, 0, [], 0, 0;
    }

    /** One event. */
    method Handle(e: Event)
      requires Valid()
      modifies this, counter
      ensures Valid() && counter == old(counter)
      ensures State() == Step(old(State()), e)
    {
      match e
      case SetMode(want, cmd) => ReadWriteMMode(want, cmd);
      case Entered => EventLoop();
      case AckOf(nr) => ResourceManagerAck(nr);
      case SetRange(i, name, modeRead, rangeSet) =>
        if i < |channels| { var _ := ReadWriteRange(i, name, modeRead, rangeSet); }
      case Startup => RegisterResource();
      case Drawn(count) => TakeNumbers(count);
    }

    /** Other users of the counter take `count` numbers. */
    method TakeNumbers(count: nat)
      requires Valid()
      modifies counter
      ensures Valid() && counter.drawn == old(counter.drawn) + count
    {
      for i := 0 to count
        invariant Valid() && counter.drawn == old(counter.drawn) + i
      {
        var _ := counter.GetMsgNr();
      }
    }

    method Send(k: nat)
      requires Valid()
      modifies this`msgNrList, counter
      ensures Valid() && counter == old(counter)
      ensures State() == old(State()).(outstanding := Batch(old(counter.drawn), k), drawn := old(counter.drawn) + k)
    {
      msgNrList := [];
      for i := 0 to k
        invariant Valid() && counter == old(counter) && counter.drawn == old(counter.drawn) + i
        invariant msgNrList == Batch(old(counter.drawn), i)
      {
        var nr := counter.GetMsgNr();
        msgNrList := msgNrList + [nr];
      }
    }

    method UnregisterSense()
      requires Valid() && phase == Starting
      modifies this, counter
      ensures Valid() && counter == old(counter)
      ensures State() == EnterUnregister(old(State()))
    {
      Send(CHANNELS);
      unregAt := |log|;
      log := log + [Sent(false, msgNrList)];
      phase := Unregistering;
    }

    method RegisterSense()
      requires Valid() && phase == Unregistering
      modifies this, counter
      ensures Valid() && counter == old(counter)
      ensures State() == EnterRegister(old(State()))
    {
      Reconfigure();
      regAt := |log|;
      phase := Registering;
      RegisterResource();
    }

    method RegisterResource()
      requires Valid()
      modifies this`msgNrList, this`log, counter
      ensures Valid() && counter == old(counter)
      ensures State() == Registered(old(State()))
    {
      Send(CHANNELS + 1);
      log := log + [Sent(true, msgNrList)];
    }

    method Reconfigure()
      requires Valid()
      modifies this`channels, this`toggles, this`late
      ensures State() == old(State()).(channels := Reconfigured(old(channels), mode), toggles := old(toggles) + 1,
                                       late := 0)
    {
      ghost var goal := Reconfigured(channels, mode);
      for i := 0 to |channels|
        invariant |channels| == |goal| && toggles == old(toggles) && late == old(late)
        invariant forall k :: 0 <= k < |goal| ==> channels[k] == if k < i then goal[k] else old(channels)[k]
      {
        var list := ToggleAll(channels[i].ranges);
        var c := channels[i];
        channels := channels[i := Channel(c.name, Description(i, mode), Unit(i, mode), mode, list, c.published)];
      }
      assert channels == goal;
      toggles, late := toggles + 1, 0;
    }

    method ToggleAll(list: seq<Range>) returns (out: seq<Range>)
      ensures out == Toggled(list)
    {
      out := list;
      for j := 0 to |list|
        invariant |out| == |list|
        invariant forall k :: 0 <= k < |list| ==> out[k] == if k < j then Toggled(list)[k] else list[k]
      {
        out := out[j := out[j].(avail := !out[j].avail)];
      }
    }

    method NotifySense()
      requires Valid() && phase == Registering
      modifies this
      ensures Valid() && counter == old(counter)
      ensures State() == EnterNotify(old(State()))
    {
      publishedMode := mode;
      log := log + [Published(mode)];
      var protoCmd := cmds[0];
      cmds := cmds[1..];
      phase := Idle;
      if protoCmd.withOutput {
        log := log + [Answer(protoCmd.id, true, true)];
      }
    }

    method ReadWriteMMode(want: Option<Mode>, cmd: Cmd)
      requires Valid()
      modifies this
      ensures Valid() && counter == old(counter)
      ensures State() == ModeCommand(old(State()), want, cmd)
    {
      if want.Some? {
        var oldMode := mode;
        mode := want.value;
        if oldMode != mode {
          cmds := cmds + [cmd];
          commands := commands + [cmd];
          if phase == Idle { phase := Starting; } else { overlaps, late := overlaps + 1, late + 1; }
        } else {
          log := log + [Answer(cmd.id, true, false)];
        }
      } else if cmd.withOutput {
        log := log + [Answer(cmd.id, false, false)];
      }
    }

    method EventLoop()
      requires Valid()
      modifies this, counter
      ensures Valid() && counter == old(counter)
      ensures State() == Begin(old(State()))
    {
      if phase == Starting { UnregisterSense(); }
    }

    method ResourceManagerAck(nr: nat)
      requires Valid()
      modifies this, counter
      ensures Valid() && counter == old(counter)
      ensures State() == AckStep(old(State()), nr)
    {
      log := log + [AckSeen(nr)];
      if nr in msgNrList {
        msgNrList := RemoveOne(msgNrList, nr);
        if msgNrList == [] {
          if phase == Unregistering { RegisterSense(); }
          else if phase == Registering { NotifySense(); }
        }
      }
    }

    method ReadWriteRange(channel: nat, name: string, modeRead: bool, rangeSet: bool) returns (reply: Reply)
      requires Valid() && channel < CHANNELS
      modifies this`channels
      ensures Valid()
      ensures var r := RangeCommand(old(channels)[channel], name, modeRead, rangeSet);
              reply == r.1 && channels == old(channels)[channel := r.0]
    {
      if !modeRead { return ErrExec; }
      var list := channels[channel].ranges;
      var i := 0;
      while i < |list|
        invariant 0 <= i <= |list|
        invariant forall j :: 0 <= j < i ==> list[j].name != name
      {
        if list[i].name == name { break; }
        i := i + 1;
      }
      FindIs(list, name, i);
      if i < |list| && list[i].avail {
        if channels[channel].mode == AC {
          if !rangeSet { return ErrExec; }
          channels := channels[channel := channels[channel].(published := name)];
        } else if list[i].name == "R0V" {
          channels := channels[channel := channels[channel].(published := "R0V")];
        } else {
          channels := channels[channel := channels[channel].(published := "R10V")];
        }
        return Ack;
      }
      return Nak;
    }

    /** The range whose upper value is read; the code indexes the list with it unchecked, which is in
        bounds exactly when the published name is in the list. */
    method ReadUrvalue(channel: nat) returns (i: nat)
      requires Valid() && channel < CHANNELS
      ensures i == Find(channels[channel].ranges, channels[channel].published)
      ensures i < |channels[channel].ranges| <==> Lists(channels[channel].ranges, channels[channel].published)
    {
      var c := channels[channel];
      i := 0;
      while i < |c.ranges|
        invariant 0 <= i <= |c.ranges|
        invariant forall j :: 0 <= j < i ==> c.ranges[j].name != c.published
      {
        if c.ranges[i].name == c.published { break; }
        i := i + 1;
      }
      FindIs(c.ranges, c.published, i);
    }
  }

  ghost predicate Lists(rs: seq<Range>, name: string)
  {
    exists j :: 0 <= j < |rs| && rs[j].name == name
  }

  lemma {:induction false} FindIs(rs: seq<Range>, name: string, i: nat)
    requires i <= |rs| && (i < |rs| ==> rs[i].name == name)
    requires forall j :: 0 <= j < i ==> rs[j].name != name
    ensures Find(rs, name) == i
  {
    var k := Find(rs, name);
    assert !(k < i) && !(i < k);
  }
}
