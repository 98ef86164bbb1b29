/**
 The SSH session worker as a step machine. Its steps are as fine as the code's blocking points:
 other tasks may send commands or drop their senders between any two of them, also while the
 worker drains a scroll burst or an output burst.
 */
module SessionWorker {
  import opened Text
  import opened SessionCommands
  import opened ScrollCompaction

  type Bytes = seq<byte>

  datatype ChannelMsg =
    | Data(bytes: Bytes)
    | ExtendedData(bytes: Bytes)
    | ExitStatus(code: nat)
    | ExitSignal(name: string)
    | Eof
    | Close
    | Other(tag: nat)

  /** The three texts the worker shows as exit status. */
  datatype ExitText = RemoteStatus(code: nat) | RemoteSignal(name: string) | SessionClosed

  datatype Refresh = Refresh(exit: Option<ExitText>, forceFull: bool)

  datatype TranscriptRecord = InputRecord(bytes: Bytes) | OutputRecord(bytes: Bytes)

  datatype StopReason = WriteFailed | Disconnected | ChannelClosed

  datatype Phase =
    | Waiting
    | DrainingScrolls(batch: seq<SessionCommand>)
    | DrainingOutput
    | Stopped(reason: StopReason)

  /** What encoding an event and writing it to the channel did. */
  datatype Effect = Effect(encoded: Option<Bytes>, writeOk: bool)

  datatype Event =
    | Send(command: SessionCommand)
    | DropSenders
    | TakePending(effect: Effect)
    | Receive(effect: Effect)
    | TryReceive
    | Message(msg: Option<ChannelMsg>)
    | Deadline

  /** `sent`, `consumed`, `received`, `bursts` and `unpublished` record history only. */
  datatype State = State(
    phase: Phase,
    queue: seq<SessionCommand>,
    sendersGone: bool,
    pending: Option<SessionCommand>,
    exitStatus: Option<ExitText>,
    terminal: seq<Bytes>,
    transcript: seq<TranscriptRecord>,
    refreshes: seq<Refresh>,
    scrolls: seq<SessionCommand>,
    written: seq<Bytes>,
    resizes: seq<nat>,
    replies: seq<nat>,
    sent: seq<SessionCommand>,
    consumed: seq<SessionCommand>,
    received: seq<ChannelMsg>,
    bursts: seq<seq<SessionCommand>>,
    unpublished: nat)

  function Init(): State {
    State(Waiting, [], false, None, None, [], [], [Refresh(None, true)], [], [], [], [], [], [], [], [], 0)
  }

  function Publish(s: State, forceFull: bool): State {
    s.(refreshes := s.refreshes + [Refresh(s.exitStatus, forceFull)], unpublished := 0)
  }

  // ---- Commands ----

  /** Recorded, then handed to the channel's writer, which may fail. */
  function WriteInput(s: State, bytes: Bytes, ok: bool): State {
    s.(transcript := s.transcript + [InputRecord(bytes)],
       written := s.written + [bytes],
       phase := if ok then Waiting else Stopped(WriteFailed))
  }

  /** `apply_session_command` on a command that is not a scroll. */
  function Apply(s: State, command: SessionCommand, effect: Effect): State
    requires !IsScroll(command)
  {
    match command
    case Input(bytes) => WriteInput(s, bytes, effect.writeOk)
    case Resize(geometry) => Publish(s.(resizes := s.resizes + [geometry]), true)
    case Text(_) => ApplyEncoded(s, effect, true)
    case Paste(_) => ApplyEncoded(s, effect, true)
    case Key(_) => ApplyEncoded(s, effect, false)
    case Mouse(_) => ApplyEncoded(s, effect, false)
    case CopySelectionText(reply) => s.(replies := s.replies + [reply])
    case PreviousTurn(reply) => s.(replies := s.replies + [reply])
    case CopyActiveScreen(reply) => s.(replies := s.replies + [reply])
  }

  /** Text and pastes always encode; a key or mouse event may fail to. Nothing is written for no bytes. */
  function ApplyEncoded(s: State, effect: Effect, infallible: bool): State {
    match effect.encoded
    case None => if infallible then s else s.(phase := Stopped(WriteFailed))
    case Some(bytes) => if bytes == [] then s else WriteInput(s, bytes, effect.writeOk)
  }

  function Consume(s: State, command: SessionCommand): State {
    s.(consumed := s.consumed + [command])
  }

  /** A scroll starts a batch; any other command is applied at once. */
  function Begin(s: State, command: SessionCommand, effect: Effect): State {
    if IsScroll(command) then Consume(s, command).(phase := DrainingScrolls([command]))
    else Apply(Consume(s, command), command, effect)
  }

  /** The slot gets the command that ended the batch, or is emptied if none did. */
  function FinishBatch(
    s: State, batch: seq<SessionCommand>, deferred: Option<SessionCommand>, disconnected: bool): State {
    Publish(
      s.(pending := deferred,
         scrolls := s.scrolls + Compact(batch),
         bursts := s.bursts + [batch],
         phase := if disconnected then Stopped(Disconnected) else Waiting),
      false)
  }

  /** One `try_recv` of `drain_scroll_command_batch`, and the end of the batch when it is over. */
  function TryReceiveStep(s: State, batch: seq<SessionCommand>): State {
    if s.queue == [] then FinishBatch(s, batch, None, s.sendersGone)
    else
      var command, rest := s.queue[0], s.queue[1..];
      if IsScroll(command) then
        Consume(s.(queue := rest, phase := DrainingScrolls(batch + [command])), command)
      else FinishBatch(s.(queue := rest), batch, Some(command), false)
  }

  // ---- Channel output ----

  function WriteOutput(s: State, bytes: Bytes): State {
    s.(transcript := s.transcript + [OutputRecord(bytes)],
       terminal := s.terminal + [bytes],
       unpublished := s.unpublished + 1,
       phase := DrainingOutput)
  }

  function CloseChannel(s: State): State {
    s.(refreshes := s.refreshes
        + [Refresh(Some(if s.exitStatus.Some? then s.exitStatus.value else SessionClosed), true)],
       unpublished := 0,
       phase := Stopped(ChannelClosed))
  }

  predicate IsData(msg: ChannelMsg) {
    msg.Data? || msg.ExtendedData?
  }

  function Dispatch(s: State, msg: ChannelMsg): State
    requires !IsData(msg)
  {
    match msg
    case ExitStatus(code) => Publish(s.(exitStatus := Some(RemoteStatus(code)), phase := Waiting), true)
    case ExitSignal(name) => Publish(s.(exitStatus := Some(RemoteSignal(name)), phase := Waiting), true)
    case Eof => CloseChannel(s)
    case Close => CloseChannel(s)
    case Other(_) => s.(phase := Waiting)
  }

  /** A message while waiting (`draining` false) or during an output burst. */
  function MessageStep(s: State, msg: Option<ChannelMsg>, draining: bool): State {
    match msg
    case None => CloseChannel(if draining then Publish(s, false) else s)
    case Some(m) =>
      var r := s.(received := s.received + [m]);
      if IsData(m) then WriteOutput(r, m.bytes)
      else Dispatch(if draining then Publish(r, false) else r, m)
  }

  // ---- Runs ----

  /** An event that is not possible in the current phase leaves the state unchanged. */
  function Step(s: State, e: Event): State {
    match e
    case Send(command) =>
      if s.phase.Stopped? || s.sendersGone then s
      else s.(queue := s.queue + [command], sent := s.sent + [command])
    case DropSenders => s.(sendersGone := true)
    case TakePending(effect) =>
      if s.phase.Waiting? && s.pending.Some? then Begin(s.(pending := None), s.pending.value, effect) else s
    case Receive(effect) =>
      if s.phase.Waiting? && s.pending.None? && s.queue != [] then Begin(s.(queue := s.queue[1..]), s.queue[0], effect)
          else s
    case TryReceive =>
      if s.phase.DrainingScrolls? then TryReceiveStep(s, s.phase.batch) else s
    case Message(msg) =>
      if s.phase.Waiting? && s.pending.None? then MessageStep(s, msg, false)
      else if s.phase.DrainingOutput? then MessageStep(s, msg, true)
      else s
    case Deadline =>
      if s.phase.DrainingOutput? then Publish(s, false).(phase := Waiting) else s
  }

  function Run(events: seq<Event>): State {
    if events == [] then Init() else Step(Run(events[..|events| - 1]), events[|events| - 1])
  }

  // ---- Conservation of commands ----

  function Slot(pending: Option<SessionCommand>): seq<SessionCommand> {
    if pending.Some? then [pending.value] else []
  }

  function ScrollsOf(commands: seq<SessionCommand>): seq<SessionCommand> {
    if commands == [] then []
    else ScrollsOf(commands[..|commands| - 1])
         + (if IsScroll(commands[|commands| - 1]) then [commands[|commands| - 1]] else [])
  }

  function Flatten(bursts: seq<seq<SessionCommand>>): seq<SessionCommand> {
    if bursts == [] then [] else Flatten(bursts[..|bursts| - 1]) + bursts[|bursts| - 1]
  }

  function CompactEach(bursts: seq<seq<SessionCommand>>): seq<SessionCommand> {
    if bursts == [] then [] else CompactEach(bursts[..|bursts| - 1]) + Compact(bursts[|bursts| - 1])
  }

  function Batch(phase: Phase): seq<SessionCommand> {
    if phase.DrainingScrolls? then phase.batch else []
  }

  ghost predicate CommandInv(s: State) {
    && s.consumed + Slot(s.pending) + s.queue == s.sent
    && (s.pending.Some? ==> !IsScroll(s.pending.value) && !s.phase.DrainingScrolls? && !s.phase.DrainingOutput?)
    && ScrollsOf(s.consumed) == Flatten(s.bursts) + Batch(s.phase)
    && s.scrolls == CompactEach(s.bursts)
    && (s.phase == Stopped(Disconnected) ==> s.sendersGone && s.queue == [] && s.pending.None?)
  }

  lemma FlattenSnoc(bursts: seq<seq<SessionCommand>>, batch: seq<SessionCommand>)
    ensures Flatten(bursts + [batch]) == Flatten(bursts) + batch
    ensures CompactEach(bursts + [batch]) == CompactEach(bursts) + Compact(batch)
  {
    assert (bursts + [batch])[..|bursts|] == bursts;
  }

  lemma ScrollsOfSnoc(commands: seq<SessionCommand>, command: SessionCommand)
    ensures ScrollsOf(commands + [command]) == ScrollsOf(commands) + (if IsScroll(command) then [command] else [])
  {
    assert (commands + [command])[..|commands|] == commands;
  }

  /** The parts of the state that the command invariant reads. */
  ghost predicate SameCommandState(s: State, t: State) {
    && s.queue == t.queue && s.pending == t.pending && s.sent == t.sent && s.consumed == t.consumed
    && s.bursts == t.bursts && s.scrolls == t.scrolls && s.sendersGone == t.sendersGone
  }

  lemma ApplyKeepsCommands(s: State, command: SessionCommand, effect: Effect)
    requires !IsScroll(command) && s.phase.Waiting?
    ensures SameCommandState(s, Apply(s, command, effect))
    ensures Apply(s, command, effect).phase in {Waiting, Stopped(WriteFailed)}
  {
  }

  lemma MessageKeepsCommands(s: State, msg: Option<ChannelMsg>, draining: bool)
    requires s.phase.Waiting? || s.phase.DrainingOutput?
    ensures SameCommandState(s, MessageStep(s, msg, draining))
    ensures MessageStep(s, msg, draining).phase in {Waiting, DrainingOutput, Stopped(ChannelClosed)}
  {
  }

  lemma TryReceiveKeepsCommandInv(s: State)
    requires CommandInv(s) && s.phase.DrainingScrolls?
    ensures CommandInv(TryReceiveStep(s, s.phase.batch))
  {
    if s.queue != [] && IsScroll(s.queue[0]) {
      BatchGrowthKeepsCommandInv(s);
    } else {
      BatchEndKeepsCommandInv(s);
    }
  }

  lemma BatchGrowthKeepsCommandInv(s: State)
    requires CommandInv(s) && s.phase.DrainingScrolls? && s.queue != [] && IsScroll(s.queue[0])
    ensures CommandInv(TryReceiveStep(s, s.phase.batch))
  {
    var batch, command, rest := s.phase.batch, s.queue[0], s.queue[1..];
    ScrollsOfSnoc(s.consumed, command);
    assert s.consumed + [] + s.queue == (s.consumed + [command]) + [] + rest;
    assert Flatten(s.bursts) + (batch + [command]) == Flatten(s.bursts) + batch + [command];
  }

  lemma BatchEndKeepsCommandInv(s: State)
    requires CommandInv(s) && s.phase.DrainingScrolls? && (s.queue == [] || !IsScroll(s.queue[0]))
    ensures CommandInv(TryReceiveStep(s, s.phase.batch))
  {
    if s.queue == [] {
      FinishKeepsCommandInv(s, None, s.sendersGone);
    } else {
      assert s.queue == [s.queue[0]] + s.queue[1..];
      FinishKeepsCommandInv(s.(queue := s.queue[1..]), Some(s.queue[0]), false);
    }
  }

  lemma FinishKeepsCommandInv(s: State, deferred: Option<SessionCommand>, disconnected: bool)
    requires s.phase.DrainingScrolls? && s.consumed + Slot(deferred) + s.queue == s.sent
    requires deferred.Some? ==> !IsScroll(deferred.value) && !disconnected
    requires ScrollsOf(s.consumed) == Flatten(s.bursts) + s.phase.batch && s.scrolls == CompactEach(s.bursts)
    requires disconnected ==> s.sendersGone && s.queue == []
    ensures CommandInv(FinishBatch(s, s.phase.batch, deferred, disconnected))
  {
    FlattenSnoc(s.bursts, s.phase.batch);
  }

  /** Everything in order but for one command that has been taken out and not begun. */
  ghost predicate TakenOut(s: State, command: SessionCommand) {
    && s.phase.Waiting? && s.pending.None? && s.consumed + [command] + s.queue == s.sent
    && ScrollsOf(s.consumed) == Flatten(s.bursts) && s.scrolls == CompactEach(s.bursts)
  }

  lemma BeginKeepsCommandInv(s: State, command: SessionCommand, effect: Effect)
    requires TakenOut(s, command)
    ensures CommandInv(Begin(s, command, effect))
  {
    ScrollsOfSnoc(s.consumed, command);
    assert s.consumed + [command] + [] + s.queue == s.consumed + [command] + s.queue;
    assert Flatten(s.bursts) + [] == Flatten(s.bursts);
    if !IsScroll(command) {
      ApplyKeepsCommands(Consume(s, command), command, effect);
    }
  }

  lemma TakePendingKeepsCommandInv(s: State, effect: Effect)
    requires CommandInv(s)
    ensures CommandInv(Step(s, TakePending(effect)))
  {
    if s.phase.Waiting? && s.pending.Some? {
      assert Flatten(s.bursts) + [] == Flatten(s.bursts);
      BeginKeepsCommandInv(s.(pending := None), s.pending.value, effect);
    }
  }

  lemma ReceiveKeepsCommandInv(s: State, effect: Effect)
    requires CommandInv(s)
    ensures CommandInv(Step(s, Receive(effect)))
  {
    if s.phase.Waiting? && s.pending.None? && s.queue != [] {
      var command, rest := s.queue[0], s.queue[1..];
      assert s.queue == [command] + rest;
      assert s.consumed + [] + s.queue == s.consumed + [command] + rest;
      assert Flatten(s.bursts) + [] == Flatten(s.bursts);
      BeginKeepsCommandInv(s.(queue := rest), command, effect);
    }
  }

  lemma CommandStep(s: State, e: Event)
    requires CommandInv(s)
    ensures CommandInv(Step(s, e))
  {
    match e {
      case Send(command) =>
        assert s.consumed + Slot(s.pending) + (s.queue + [command]) == s.consumed + Slot(s.pending) + s.queue
            + [command];
      case DropSenders =>
      case TakePending(effect) =>
        TakePendingKeepsCommandInv(s, effect);
      case Receive(effect) =>
        ReceiveKeepsCommandInv(s, effect);
      case TryReceive =>
        if s.phase.DrainingScrolls? {
          TryReceiveKeepsCommandInv(s);
        }
      case Message(msg) =>
        if s.phase.Waiting? || s.phase.DrainingOutput? {
          MessageKeepsCommands(s, msg, s.phase.DrainingOutput?);
        }
      case Deadline =>
    }
  }

  /**
   Over every run: consumed commands, then the pending slot, then the queue are the commands sent,
   in order; the slot holds no scroll; the scrolls applied are the compactions of the bursts the
   consumed scrolls were split into; and a disconnect exit leaves nothing behind.
   */
  lemma {:induction false} NoCommandIsLost(events: seq<Event>)
    ensures CommandInv(Run(events))
  {
    if events == [] {
      assert [] + Slot(None) + [] == [];
    } else {
      NoCommandIsLost(events[..|events| - 1]);
      CommandStep(Run(events[..|events| - 1]), events[|events| - 1]);
    }
  }

  /** A full slot is never overwritten: a step keeps it or hands its command to the consumer. */
  lemma PendingIsNeverOverwritten(events: seq<Event>, e: Event)
    requires Run(events).pending.Some?
    ensures var s, t := Run(events), Step(Run(events), e);
            || (t.pending == s.pending && t.consumed == s.consumed)
            || (t.pending.None? && t.consumed == s.consumed + [s.pending.value])
  {
    NoCommandIsLost(events);
    var s := Run(events);
    if e.TakePending? && s.phase.Waiting? {
      ApplyKeepsCommands(Consume(s.(pending := None), s.pending.value), s.pending.value, e.effect);
    }
  }

  /** When the worker stops because all senders are gone, every command sent has been consumed. */
  lemma DisconnectLosesNothing(events: seq<Event>)
    requires Run(events).phase == Stopped(Disconnected)
    ensures Run(events).consumed == Run(events).sent
    ensures ScrollsOf(Run(events).sent) == Flatten(Run(events).bursts)
  {
    NoCommandIsLost(events);
    var s := Run(events);
    assert s.consumed + [] + [] == s.consumed;
    assert Flatten(s.bursts) + [] == Flatten(s.bursts);
  }

  // ---- Output ----

  function DataOf(msgs: seq<ChannelMsg>): seq<Bytes> {
    if msgs == [] then []
    else DataOf(msgs[..|msgs| - 1]) + (if IsData(msgs[|msgs| - 1]) then [msgs[|msgs| - 1].bytes] else [])
  }

  function OutputsOf(records: seq<TranscriptRecord>): seq<Bytes> {
    if records == [] then []
    else OutputsOf(records[..|records| - 1])
         + (if records[|records| - 1].OutputRecord? then [records[|records| - 1].bytes] else [])
  }

  /** The last exit status or signal among the messages. */
  function LastExit(msgs: seq<ChannelMsg>): Option<ExitText> {
    if msgs == [] then None else
      match msgs[|msgs| - 1]
      case ExitStatus(code) => Some(RemoteStatus(code))
      case ExitSignal(name) => Some(RemoteSignal(name))
      case _ => LastExit(msgs[..|msgs| - 1])
  }

  /** Once a refresh has shown an exit status, every later one shows one. */
  ghost predicate ExitSticks(refreshes: seq<Refresh>) {
    forall i, j | 0 <= i < j < |refreshes| :: refreshes[i].exit.Some? ==> refreshes[j].exit.Some?
  }

  ghost predicate OutputInv(s: State) {
    && s.terminal == DataOf(s.received)
    && OutputsOf(s.transcript) == DataOf(s.received)
    && (!s.phase.DrainingOutput? ==> s.unpublished == 0)
    && s.exitStatus == LastExit(s.received)
    && ExitSticks(s.refreshes)
    && (s.exitStatus.None? && s.phase != Stopped(ChannelClosed) ==>
          forall i | 0 <= i < |s.refreshes| :: s.refreshes[i].exit.None?)
    && (s.phase == Stopped(ChannelClosed) ==>
          && s.refreshes != []
          && s.refreshes[|s.refreshes| - 1]
             == Refresh(Some(if LastExit(s.received).Some? then LastExit(s.received).value else SessionClosed), true))
  }

  lemma PublishKeepsOutput(s: State, forceFull: bool)
    requires OutputInv(s.(unpublished := 0)) && !s.phase.Stopped?
    ensures OutputInv(Publish(s, forceFull))
  {
  }

  lemma CloseKeepsOutput(s: State)
    requires OutputInv(s.(unpublished := 0)) && !s.phase.Stopped?
    ensures OutputInv(CloseChannel(s))
  {
  }

  lemma ReceivedSnoc(msgs: seq<ChannelMsg>, m: ChannelMsg)
    ensures DataOf(msgs + [m]) == DataOf(msgs) + (if IsData(m) then [m.bytes] else [])
    ensures LastExit(msgs + [m]) == match m
                                    case ExitStatus(code) => Some(RemoteStatus(code))
                                    case ExitSignal(name) => Some(RemoteSignal(name))
                                    case _ => LastExit(msgs)
  {
    assert (msgs + [m])[..|msgs|] == msgs;
  }

  lemma OutputsSnoc(records: seq<TranscriptRecord>, r: TranscriptRecord)
    ensures OutputsOf(records + [r]) == OutputsOf(records) + (if r.OutputRecord? then [r.bytes] else [])
  {
    assert (records + [r])[..|records|] == records;
  }

  lemma ApplyKeepsOutput(s: State, command: SessionCommand, effect: Effect)
    requires !IsScroll(command) && s.phase.Waiting? && OutputInv(s)
    ensures OutputInv(Apply(s, command, effect))
  {
    if command.Input? { InputKeepsOutput(s, command.bytes, effect.writeOk); }
    if effect.encoded.Some? { InputKeepsOutput(s, effect.encoded.value, effect.writeOk); }
    if command.Resize? { PublishKeepsOutput(s.(resizes := s.resizes + [command.geometry]), true); }
  }

  lemma InputKeepsOutput(s: State, bytes: Bytes, ok: bool)
    requires s.phase.Waiting? && OutputInv(s)
    ensures OutputInv(WriteInput(s, bytes, ok))
  {
    OutputsSnoc(s.transcript, InputRecord(bytes));
  }

  lemma BeginKeepsOutput(s: State, command: SessionCommand, effect: Effect)
    requires s.phase.Waiting? && OutputInv(s)
    ensures OutputInv(Begin(s, command, effect))
  {
    if !IsScroll(command) {
      ApplyKeepsOutput(Consume(s, command), command, effect);
    }
  }

  lemma MessageKeepsOutput(s: State, msg: Option<ChannelMsg>, draining: bool)
    requires OutputInv(s) && draining == s.phase.DrainingOutput? && (s.phase.Waiting? || draining)
    ensures OutputInv(MessageStep(s, msg, draining))
  {
    match msg {
      case None =>
        if draining { PublishKeepsOutput(s, false); }
        CloseKeepsOutput(if draining then Publish(s, false) else s);
      case Some(m) =>
        ReceivedSnoc(s.received, m);
        var r := s.(received := s.received + [m]);
        if IsData(m) {
          OutputsSnoc(s.transcript, OutputRecord(m.bytes));
        } else {
          DispatchKeepsOutput(s, if draining then Publish(s, false) else s, m);
        }
    }
  }

  /** Dispatch of a control message on a state in which all output is published. */
  lemma DispatchKeepsOutput(before: State, s: State, m: ChannelMsg)
    requires OutputInv(before) && !before.phase.Stopped? && !IsData(m)
    requires s == before || s == Publish(before, false)
    requires s.unpublished == 0
    ensures OutputInv(Dispatch(s.(received := s.received + [m]), m))
  {
    ReceivedSnoc(s.received, m);
    PublishKeepsOutput(before, false);
    var r := s.(received := s.received + [m]);
    match m {
      case ExitStatus(code) => PublishKeepsOutput(r.(exitStatus := Some(RemoteStatus(code)), phase := Waiting), true);
      case ExitSignal(name) => PublishKeepsOutput(r.(exitStatus := Some(RemoteSignal(name)), phase := Waiting), true);
      case Eof => CloseKeepsOutput(r);
      case Close => CloseKeepsOutput(r);
      case Other(_) =>
    }
  }

  lemma CommandKeepsOutput(s: State, e: Event)
    requires OutputInv(s) && (e.TakePending? || e.Receive?)
    ensures OutputInv(Step(s, e))
  {
    if s.phase.Waiting? && e.TakePending? && s.pending.Some? {
      BeginKeepsOutput(s.(pending := None), s.pending.value, e.effect);
    } else if s.phase.Waiting? && e.Receive? && s.pending.None? && s.queue != [] {
      BeginKeepsOutput(s.(queue := s.queue[1..]), s.queue[0], e.effect);
    }
  }

  lemma BatchKeepsOutput(s: State)
    requires OutputInv(s)
    ensures OutputInv(Step(s, TryReceive))
  {
    if s.phase.DrainingScrolls? {
      var batch := s.phase.batch;
      if s.queue == [] {
        FinishKeepsOutput(s, batch, None, s.sendersGone);
      } else if !IsScroll(s.queue[0]) {
        FinishKeepsOutput(s.(queue := s.queue[1..]), batch, Some(s.queue[0]), false);
      }
    }
  }

  lemma FinishKeepsOutput(s: State, batch: seq<SessionCommand>, deferred: Option<SessionCommand>, disconnected: bool)
    requires OutputInv(s) && s.phase.DrainingScrolls?
    ensures OutputInv(FinishBatch(s, batch, deferred, disconnected))
  {
    PublishKeepsOutput(s.(phase := Waiting), false);
  }

  lemma MessageEventKeepsOutput(s: State, msg: Option<ChannelMsg>)
    requires OutputInv(s)
    ensures OutputInv(Step(s, Message(msg)))
  {
    if s.phase.Waiting? || s.phase.DrainingOutput? {
      MessageKeepsOutput(s, msg, s.phase.DrainingOutput?);
    }
  }

  lemma OutputStep(s: State, e: Event)
    requires OutputInv(s)
    ensures OutputInv(Step(s, e))
  {
    match e {
      case Send(_) =>
      case DropSenders =>
      case TakePending(_) => CommandKeepsOutput(s, e);
      case Receive(_) => CommandKeepsOutput(s, e);
      case TryReceive => BatchKeepsOutput(s);
      case Message(msg) => MessageEventKeepsOutput(s, msg);
      case Deadline =>
        if s.phase.DrainingOutput? {
          PublishKeepsOutput(s.(phase := Waiting), false);
        }
    }
  }

  /**
   Over every run: the terminal and the transcript get exactly the received data chunks, in order;
   nothing written is unpublished outside an output burst; a shown exit status never disappears;
   the last refresh of a closed channel carries the last status or signal seen, or the closing text.
   */
  lemma {:induction false} OutputIsFaithful(events: seq<Event>)
    ensures OutputInv(Run(events))
  {
    if events != [] {
      OutputIsFaithful(events[..|events| - 1]);
      OutputStep(Run(events[..|events| - 1]), events[|events| - 1]);
    }
  }

  // ---- Meaning of a whole run ----

  /** A burst's terminal, and what output and resizes have made of the viewport since the burst before it. */
  datatype Setting = Setting(terminal: Terminal, drift: Viewport -> Viewport)

  /** Replay bursts, each in its setting. */
  function Replay(settings: seq<Setting>, view: Viewport, bursts: seq<seq<SessionCommand>>): Viewport
    requires |settings| == |bursts|
  {
    if bursts == [] then view else
      var n := |bursts| - 1;
      ScrollAll(settings[n].terminal, settings[n].drift(Replay(settings[..n], view, bursts[..n])), bursts[n])
  }

  function CompactBursts(bursts: seq<seq<SessionCommand>>): (compacted: seq<seq<SessionCommand>>)
    ensures |compacted| == |bursts|
  {
    if bursts == [] then [] else
      CompactBursts(bursts[..|bursts| - 1]) + [Compact(bursts[|bursts| - 1])]
  }

  /** Each burst is mergeable on its terminal and starts inside that terminal's viewport. */
  ghost predicate ReplayOk(settings: seq<Setting>, view: Viewport, bursts: seq<seq<SessionCommand>>)
    requires |settings| == |bursts|
  {
    bursts != [] ==>
      var n := |bursts| - 1;
      && ReplayOk(settings[..n], view, bursts[..n])
      && BurstOk(settings[n].terminal, bursts[n])
      && InRange(settings[n].terminal, settings[n].drift(Replay(settings[..n], view, bursts[..n])).offset)
  }

  lemma {:induction false} ReplayCompacted(settings: seq<Setting>, view: Viewport, bursts: seq<seq<SessionCommand>>)
    requires |settings| == |bursts| && ReplayOk(settings, view, bursts)
    ensures Replay(settings, view, CompactBursts(bursts)) == Replay(settings, view, bursts)
  {
    if bursts != [] {
      var n := |bursts| - 1;
      var before := settings[n].drift(Replay(settings[..n], view, bursts[..n]));
      ReplayCompacted(settings[..n], view, bursts[..n]);
      CompactPreservesViewport(settings[n].terminal, before, bursts[n]);
      assert CompactBursts(bursts)[..n] == CompactBursts(bursts[..n]);
    }
  }

  lemma {:induction false} FlattenCompacted(bursts: seq<seq<SessionCommand>>)
    ensures Flatten(CompactBursts(bursts)) == CompactEach(bursts)
  {
    if bursts != [] {
      FlattenCompacted(bursts[..|bursts| - 1]);
      FlattenSnoc(CompactBursts(bursts[..|bursts| - 1]), Compact(bursts[|bursts| - 1]));
    }
  }

  /**
   Over every run, the scrolls the terminal was given are the compacted bursts, the bursts are the
   consumed scroll commands, and where the bursts are mergeable both leave the viewport in one place.
   */
  lemma RunScrollsAsSent(events: seq<Event>, settings: seq<Setting>, view: Viewport)
    requires |settings| == |Run(events).bursts| && ReplayOk(settings, view, Run(events).bursts)
    ensures var s := Run(events);
            && ScrollsOf(s.consumed) == Flatten(s.bursts) + Batch(s.phase)
            && s.scrolls == Flatten(CompactBursts(s.bursts))
            && Replay(settings, view, CompactBursts(s.bursts)) == Replay(settings, view, s.bursts)
  {
    NoCommandIsLost(events);
    FlattenCompacted(Run(events).bursts);
    ReplayCompacted(settings, view, Run(events).bursts);
  }

  // ---- The code's own loops ----

  lemma RunSnoc(events: seq<Event>, i: nat)
    requires i < |events|
    ensures Run(events[..i + 1]) == Step(Run(events[..i]), events[i])
  {
    assert events[..i + 1][..i] == events[..i];
  }

  /** Once stopped, the worker does nothing more. */
  lemma StoppedStep(s: State, e: Event)
    requires s.phase.Stopped?
    ensures Step(s, e) == if e.DropSenders? then s.(sendersGone := true) else s
  {
  }

  /**
   The worker's variables, changed in place by nested loops. `events` is the order in which the
   executor lets things happen; the loops read it where the code waits.
   */
  class Worker {
    var queue: seq<SessionCommand>
    var sendersGone: bool
    var pending: Option<SessionCommand>
    var exitStatus: Option<ExitText>
    var terminal: seq<Bytes>
    var transcript: seq<TranscriptRecord>
    var refreshes: seq<Refresh>
    var scrolls: seq<SessionCommand>
    var written: seq<Bytes>
    var resizes: seq<nat>
    var replies: seq<nat>
    ghost var sent: seq<SessionCommand>
    ghost var consumed: seq<SessionCommand>
    ghost var received: seq<ChannelMsg>
    ghost var bursts: seq<seq<SessionCommand>>
    ghost var unpublished: nat

    ghost function Model(phase: Phase): State
      reads this
    {
      State(phase, queue, sendersGone, pending, exitStatus, terminal, transcript, refreshes, scrolls,
            written, resizes, replies, sent, consumed, received, bursts, unpublished)
    }

    constructor ()
      ensures Model(Waiting) == Init()
    {
      queue, sendersGone, pending, exitStatus := [], false, None, None;
      terminal, transcript, refreshes, scrolls := [], [], [Refresh(None, true)], [];
      written, resizes, replies := [], [], [];
      sent, consumed, received, bursts, unpublished := [], [], [], [], 0;
    }

    method RefreshViewport(forceFull: bool)
      modifies this
      ensures Model(Waiting) == Publish(old(Model(Waiting)), forceFull)
    {
      refreshes := refreshes + [Refresh(exitStatus, forceFull)];
      unpublished := 0;
    }

    method WriteInputBytes(bytes: Bytes, writeOk: bool) returns (phase: Phase)
      modifies this
      ensures Model(phase) == WriteInput(old(Model(Waiting)), bytes, writeOk)
    {
      transcript := transcript + [InputRecord(bytes)];
      written := written + [bytes];
      phase := if writeOk then Waiting else Stopped(WriteFailed);
    }

    method ApplySessionCommand(command: SessionCommand, effect: Effect) returns (phase: Phase)
      requires !IsScroll(command)
      modifies this
      ensures Model(phase) == Apply(old(Model(Waiting)), command, effect)
    {
      phase := Waiting;
      match command {
        case Input(bytes) =>
          phase := WriteInputBytes(bytes, effect.writeOk);
        case Text(_) | Paste(_) =>
          if effect.encoded.Some? && effect.encoded.value != [] {
            phase := WriteInputBytes(effect.encoded.value, effect.writeOk);
          }
        case Key(_) | Mouse(_) =>
          if effect.encoded.None? {
            phase := Stopped(WriteFailed);
          } else if effect.encoded.value != [] {
            phase := WriteInputBytes(effect.encoded.value, effect.writeOk);
          }
        case Resize(geometry) =>
          resizes := resizes + [geometry];
          RefreshViewport(true);
        case CopySelectionText(reply) =>
          replies := replies + [reply];
        case PreviousTurn(reply) =>
          replies := replies + [reply];
        case CopyActiveScreen(reply) =>
          replies := replies + [reply];
      }
    }

    method Environment(e: Event, ghost phase: Phase)
      requires e.Send? || e.DropSenders?
      requires !phase.Stopped?
      modifies this
      ensures Model(phase) == Step(old(Model(phase)), e)
    {
      match e {
        case Send(command) =>
          if !sendersGone {
            queue := queue + [command];
            sent := sent + [command];
          }
        case DropSenders =>
          sendersGone := true;
      }
    }

    /** Applies the compacted batch and publishes once. */
    method ApplyScrollBatch(drained: seq<SessionCommand>, deferred: Option<SessionCommand>, disconnected: bool)
      returns (phase: Phase)
      modifies this
      ensures Model(phase) == FinishBatch(old(Model(DrainingScrolls(drained))), drained, deferred, disconnected)
      ensures phase.Waiting? || phase.Stopped?
    {
      pending := deferred;
      var compacted := CompactScrollCommandBurst(drained);
      scrolls := scrolls + compacted;
      bursts := bursts + [drained];
      RefreshViewport(false);
      phase := if disconnected then Stopped(Disconnected) else Waiting;
    }

    /** One `try_recv`: extend the batch, or end it on another command, an empty or a closed queue. */
    method TryReceiveOne(drained: seq<SessionCommand>) returns (phase: Phase)
      modifies this
      ensures Model(phase) == TryReceiveStep(old(Model(DrainingScrolls(drained))), drained)
      ensures !phase.DrainingOutput?
    {
      if queue == [] {
        phase := ApplyScrollBatch(drained, None, sendersGone);
        return;
      }
      var command := queue[0];
      queue := queue[1..];
      if IsScroll(command) {
        consumed := consumed + [command];
        phase := DrainingScrolls(drained + [command]);
      } else {
        phase := ApplyScrollBatch(drained, Some(command), false);
      }
    }

    method DrainScrollStep(e: Event, drained: seq<SessionCommand>) returns (phase: Phase)
      modifies this
      ensures Model(phase) == Step(old(Model(DrainingScrolls(drained))), e)
      ensures !phase.DrainingOutput?
    {
      phase := DrainingScrolls(drained);
      if e.Send? || e.DropSenders? {
        Environment(e, phase);
      } else if e.TryReceive? {
        phase := TryReceiveOne(drained);
      }
    }

    method NextOfScrolls(events: seq<Event>, i: nat, now: Phase) returns (phase: Phase)
      requires i < |events| && now.DrainingScrolls? && Model(now) == Run(events[..i])
      modifies this
      ensures Model(phase) == Run(events[..i + 1])
      ensures !phase.DrainingOutput?
    {
      RunSnoc(events, i);
      assert now == DrainingScrolls(now.batch);
      phase := DrainScrollStep(events[i], now.batch);
    }

    method DrainScrollCommandBatch(first: SessionCommand, events: seq<Event>, start: nat)
      returns (phase: Phase, next: nat)
      requires start <= |events| && Model(DrainingScrolls([first])) == Run(events[..start])
      modifies this
      ensures start <= next <= |events|
      ensures phase.DrainingScrolls? ==> next == |events|
      ensures !phase.DrainingOutput?
      ensures Model(phase) == Run(events[..next])
    {
      phase, next := DrainingScrolls([first]), start;
      while next < |events| && phase.DrainingScrolls?
        invariant start <= next <= |events| && !phase.DrainingOutput?
        invariant Model(phase) == Run(events[..next])
      {
        phase := NextOfScrolls(events, next, phase);
        next := next + 1;
      }
    }

    method RecordAndWriteOutput(bytes: Bytes)
      modifies this
      ensures Model(DrainingOutput) == WriteOutput(old(Model(DrainingOutput)), bytes)
    {
      transcript := transcript + [OutputRecord(bytes)];
      terminal := terminal + [bytes];
      unpublished := unpublished + 1;
    }

    method DispatchControl(msg: ChannelMsg) returns (phase: Phase)
      requires !IsData(msg)
      modifies this
      ensures Model(phase) == Dispatch(old(Model(Waiting)), msg)
      ensures phase.Waiting? || phase.Stopped?
    {
      phase := Waiting;
      match msg {
        case ExitStatus(code) =>
          exitStatus := Some(RemoteStatus(code));
          RefreshViewport(true);
        case ExitSignal(name) =>
          exitStatus := Some(RemoteSignal(name));
          RefreshViewport(true);
        case Eof | Close =>
          phase := ChannelIsClosed();
        case Other(_) =>
      }
    }

    method ChannelIsClosed() returns (phase: Phase)
      modifies this
      ensures Model(phase) == CloseChannel(old(Model(Waiting)))
      ensures phase == Stopped(ChannelClosed)
    {
      refreshes := refreshes + [Refresh(Some(if exitStatus.Some? then exitStatus.value else SessionClosed), true)];
      unpublished := 0;
      phase := Stopped(ChannelClosed);
    }

    /** One message while output is being drained: data goes on with it, anything else ends it. */
    method DrainMessage(msg: Option<ChannelMsg>) returns (phase: Phase)
      modifies this
      ensures Model(phase) == MessageStep(old(Model(DrainingOutput)), msg, true)
      ensures phase.Waiting? || phase.Stopped? || phase.DrainingOutput?
    {
      if msg.None? {
        RefreshViewport(false);
        phase := ChannelIsClosed();
        return;
      }
      received := received + [msg.value];
      if IsData(msg.value) {
        RecordAndWriteOutput(msg.value.bytes);
        phase := DrainingOutput;
      } else {
        RefreshViewport(false);
        phase := DispatchControl(msg.value);
      }
    }

    method DrainStep(e: Event) returns (phase: Phase)
      modifies this
      ensures Model(phase) == Step(old(Model(DrainingOutput)), e)
      ensures phase.Waiting? || phase.Stopped? || phase.DrainingOutput?
    {
      phase := DrainingOutput;
      if e.Send? || e.DropSenders? {
        Environment(e, DrainingOutput);
      } else if e.Deadline? {
        RefreshViewport(false);
        phase := Waiting;
      } else if e.Message? {
        phase := DrainMessage(e.msg);
      }
    }

    method NextOfOutput(events: seq<Event>, i: nat) returns (phase: Phase)
      requires i < |events| && Model(DrainingOutput) == Run(events[..i])
      modifies this
      ensures Model(phase) == Run(events[..i + 1])
      ensures phase.Waiting? || phase.Stopped? || phase.DrainingOutput?
    {
      RunSnoc(events, i);
      phase := DrainStep(events[i]);
    }

    method DrainDataBurst(events: seq<Event>, start: nat) returns (phase: Phase, next: nat)
      requires start <= |events| && Model(DrainingOutput) == Run(events[..start])
      modifies this
      ensures start <= next <= |events|
      ensures phase.DrainingOutput? ==> next == |events|
      ensures !phase.DrainingScrolls?
      ensures Model(phase) == Run(events[..next])
    {
      phase, next := DrainingOutput, start;
      while next < |events| && phase.DrainingOutput?
        invariant start <= next <= |events| && !phase.DrainingScrolls?
        invariant Model(phase) == Run(events[..next])
      {
        phase := NextOfOutput(events, next);
        next := next + 1;
      }
    }

    /** The main loop: the pending command first, then whichever of the two sources is ready. */
    method RunSshSession(events: seq<Event>) returns (phase: Phase)
      requires Model(Waiting) == Init()
      modifies this
      ensures Model(phase) == Run(events)
    {
      phase := Waiting;
      var i := 0;
      while i < |events|
        invariant 0 <= i <= |events|
        invariant Model(phase) == Run(events[..i])
        invariant i < |events| ==> phase.Waiting? || phase.Stopped?
      {
        var e := events[i];
        RunSnoc(events, i);
        if phase.Stopped? {
          StoppedStep(Model(phase), e);
          if e.DropSenders? { sendersGone := true; }
          i := i + 1;
        } else if e.Send? || e.DropSenders? {
          Environment(e, phase);
          i := i + 1;
        } else {
          phase, i := Turn(events, i);
        }
      }
      assert events[..i] == events;
    }

    /** One turn of the loop: the pending command, or a `select!`, and the burst that it starts. */
    method Turn(events: seq<Event>, i: nat) returns (phase: Phase, next: nat)
      requires i < |events| && Model(Waiting) == Run(events[..i])
      requires !events[i].Send? && !events[i].DropSenders?
      modifies this
      ensures i < next <= |events|
      ensures next < |events| ==> phase.Waiting? || phase.Stopped?
      ensures Model(phase) == Run(events[..next])
    {
      phase := FirstOfTurn(events, i);
      next := i + 1;
      if phase.DrainingScrolls? {
        phase, next := ContinueScrolls(phase, events, next);
      } else if phase.DrainingOutput? {
        phase, next := DrainDataBurst(events, next);
      }
    }

    method FirstOfTurn(events: seq<Event>, i: nat) returns (phase: Phase)
      requires i < |events| && Model(Waiting) == Run(events[..i])
      requires !events[i].Send? && !events[i].DropSenders?
      modifies this
      ensures Model(phase) == Run(events[..i + 1])
      ensures phase.DrainingScrolls? ==> |phase.batch| == 1
    {
      RunSnoc(events, i);
      phase := TurnOne(events[i]);
    }

    method ContinueScrolls(start: Phase, events: seq<Event>, i: nat) returns (phase: Phase, next: nat)
      requires i <= |events| && start.DrainingScrolls? && |start.batch| == 1 && Model(start) == Run(events[..i])
      modifies this
      ensures i <= next <= |events|
      ensures next < |events| ==> phase.Waiting? || phase.Stopped?
      ensures Model(phase) == Run(events[..next])
    {
      assert start == DrainingScrolls([start.batch[0]]);
      phase, next := DrainScrollCommandBatch(start.batch[0], events, i);
    }

    method TurnOne(e: Event) returns (phase: Phase)
      requires !e.Send? && !e.DropSenders?
      modifies this
      ensures Model(phase) == Step(old(Model(Waiting)), e)
      ensures phase.DrainingScrolls? ==> |phase.batch| == 1
    {
      if pending.Some? {
        phase := TakeAndApplyPending(e);
      } else {
        phase := Select(e);
      }
    }

    /** The pending command comes before anything that is waited for. */
    method TakeAndApplyPending(e: Event) returns (phase: Phase)
      requires pending.Some? && !e.Send? && !e.DropSenders?
      modifies this
      ensures Model(phase) == Step(old(Model(Waiting)), e)
      ensures phase.DrainingScrolls? ==> |phase.batch| == 1
    {
      phase := Waiting;
      if e.TakePending? {
        var command := pending.value;
        pending := None;
        phase := BeginCommand(command, e.effect);
      }
    }

    method BeginCommand(command: SessionCommand, effect: Effect) returns (phase: Phase)
      modifies this
      ensures Model(phase) == Begin(old(Model(Waiting)), command, effect)
      ensures phase.DrainingScrolls? ==> |phase.batch| == 1
    {
      consumed := consumed + [command];
      if IsScroll(command) {
        phase := DrainingScrolls([command]);
      } else {
        ApplyKeepsCommands(Model(Waiting), command, effect);
        phase := ApplySessionCommand(command, effect);
      }
    }

    method Select(e: Event) returns (phase: Phase)
      requires pending.None? && !e.Send? && !e.DropSenders?
      modifies this
      ensures Model(phase) == Step(old(Model(Waiting)), e)
      ensures phase.DrainingScrolls? ==> |phase.batch| == 1
    {
      if e.Receive? && queue != [] {
        var command := queue[0];
        queue := queue[1..];
        phase := BeginCommand(command, e.effect);
      } else if e.Message? {
        phase := SelectMessage(e.msg);
      } else {
        phase := Waiting;
      }
    }

    /** Data starts a burst; anything else is dealt with at once. */
    method SelectMessage(msg: Option<ChannelMsg>) returns (phase: Phase)
      modifies this
      ensures Model(phase) == MessageStep(old(Model(Waiting)), msg, false)
      ensures !phase.DrainingScrolls?
    {
      if msg.None? {
        phase := ChannelIsClosed();
        return;
      }
      received := received + [msg.value];
      if IsData(msg.value) {
        RecordAndWriteOutput(msg.value.bytes);
        phase := DrainingOutput;
      } else {
        phase := DispatchControl(msg.value);
      }
    }
  }
}
