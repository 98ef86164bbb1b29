/** What the user types reaches the channel: the effects of commands, said without the worker's steps. */
module SessionInput {
  import opened Text
  import opened SessionCommands
  import opened SessionWorker

  /** The bytes a command stands for: its own, or what it is encoded to, if that is anything. */
  function InputOf(command: SessionCommand, effect: Effect): seq<Bytes> {
    if command.Input? then [command.bytes]
    else if (command.Text? || command.Key? || command.Mouse? || command.Paste?)
            && effect.encoded.Some? && effect.encoded.value != []
    then [effect.encoded.value]
    else []
  }

  /** The command an event makes the worker begin. */
  function BegunBy(s: State, e: Event): Option<(SessionCommand, Effect)> {
    if !s.phase.Waiting? then None
    else if e.TakePending? && s.pending.Some? then Some((s.pending.value, e.effect))
    else if e.Receive? && s.pending.None? && s.queue != [] then Some((s.queue[0], e.effect))
    else None
  }

  function TypedBy(s: State, e: Event): seq<Bytes> {
    var begun := BegunBy(s, e);
    if begun.Some? then InputOf(begun.value.0, begun.value.1) else []
  }

  /** All that was typed in a run, in the order of the commands. */
  function Typed(events: seq<Event>): seq<Bytes> {
    if events == [] then []
    else Typed(events[..|events| - 1]) + TypedBy(Run(events[..|events| - 1]), events[|events| - 1])
  }

  function InputsOf(records: seq<TranscriptRecord>): seq<Bytes> {
    if records == [] then []
    else InputsOf(records[..|records| - 1])
         + (if records[|records| - 1].InputRecord? then [records[|records| - 1].bytes] else [])
  }

  function GeometriesOf(commands: seq<SessionCommand>): seq<nat> {
    if commands == [] then [] else
      var last := commands[|commands| - 1];
      GeometriesOf(commands[..|commands| - 1]) + (if last.Resize? then [last.geometry] else [])
  }

  function ReplyOf(command: SessionCommand): seq<nat> {
    if command.CopySelectionText? || command.PreviousTurn? || command.CopyActiveScreen? then [command.reply] else []
  }

  function RepliesOf(commands: seq<SessionCommand>): seq<nat> {
    if commands == [] then []
    else RepliesOf(commands[..|commands| - 1]) + ReplyOf(commands[|commands| - 1])
  }

  lemma InputsSnoc(records: seq<TranscriptRecord>, r: TranscriptRecord)
    ensures InputsOf(records + [r]) == InputsOf(records) + (if r.InputRecord? then [r.bytes] else [])
  {
    assert (records + [r])[..|records|] == records;
  }

  lemma CommandsSnoc(commands: seq<SessionCommand>, c: SessionCommand)
    ensures GeometriesOf(commands + [c]) == GeometriesOf(commands) + (if c.Resize? then [c.geometry] else [])
    ensures RepliesOf(commands + [c]) == RepliesOf(commands) + ReplyOf(c)
  {
    assert (commands + [c])[..|commands|] == commands;
  }

  /** The fields that only commands change. */
  ghost predicate SameInput(s: State, t: State) {
    && t.written == s.written && InputsOf(t.transcript) == InputsOf(s.transcript)
    && t.resizes == s.resizes && t.replies == s.replies
  }

  ghost predicate InputInv(s: State) {
    InputsOf(s.transcript) == s.written && s.resizes == GeometriesOf(s.consumed) && s.replies == RepliesOf(s.consumed)
  }

  lemma WritingInput(s: State, bytes: Bytes, ok: bool)
    ensures var t := WriteInput(s, bytes, ok);
            && t.written == s.written + [bytes] && InputsOf(t.transcript) == InputsOf(s.transcript) + [bytes]
            && t.resizes == s.resizes && t.replies == s.replies && t.consumed == s.consumed
                && t.refreshes == s.refreshes
  {
    InputsSnoc(s.transcript, InputRecord(bytes));
  }

  /** What a command adds, on top of a state. */
  ghost predicate Adds(
    s: State, t: State, bytes: seq<Bytes>, geometries: seq<nat>, answers: seq<nat>, shown: seq<Refresh>) {
    && t.written == s.written + bytes && InputsOf(t.transcript) == InputsOf(s.transcript) + bytes
    && t.resizes == s.resizes + geometries && t.replies == s.replies + answers
    && t.refreshes == s.refreshes + shown && t.consumed == s.consumed
  }

  lemma EncodedInput(s: State, effect: Effect, infallible: bool)
    ensures Adds(s, ApplyEncoded(s, effect, infallible),
                 if effect.encoded.Some? && effect.encoded.value != [] then [effect.encoded.value] else [], [], [], [])
  {
    if effect.encoded.Some? { WritingInput(s, effect.encoded.value, effect.writeOk); }
  }

  lemma ApplyInput(s: State, command: SessionCommand, effect: Effect)
    requires !IsScroll(command)
    ensures Adds(s, Apply(s, command, effect), InputOf(command, effect),
                 if command.Resize? then [command.geometry] else [], ReplyOf(command),
                 if command.Resize? then [Refresh(s.exitStatus, true)] else [])
  {
    if command.Input? {
      WritingInput(s, command.bytes, effect.writeOk);
    } else if command.Text? || command.Paste? {
      EncodedInput(s, effect, true);
    } else if command.Key? || command.Mouse? {
      EncodedInput(s, effect, false);
    }
  }

  lemma BeginInput(s: State, command: SessionCommand, effect: Effect)
    requires InputInv(s)
    ensures var t := Begin(s, command, effect);
            && InputInv(t) && t.written == s.written + InputOf(command, effect)
            && t.consumed == s.consumed + [command]
            && t.refreshes == s.refreshes + (if command.Resize? then [Refresh(s.exitStatus, true)] else [])
  {
    CommandsSnoc(s.consumed, command);
    if !IsScroll(command) {
      ApplyInput(Consume(s, command), command, effect);
    }
  }

  lemma BegunStep(s: State, e: Event)
    requires InputInv(s) && BegunBy(s, e).Some?
    ensures var t := Step(s, e); InputInv(t) && t.written == s.written + TypedBy(s, e)
    ensures Step(s, e).consumed == s.consumed + [BegunBy(s, e).value.0]
  {
    if e.TakePending? {
      BeginInput(s.(pending := None), s.pending.value, e.effect);
    } else {
      BeginInput(s.(queue := s.queue[1..]), s.queue[0], e.effect);
    }
  }

  lemma MessageInput(s: State, msg: Option<ChannelMsg>, draining: bool)
    ensures SameInput(s, MessageStep(s, msg, draining)) && MessageStep(s, msg, draining).consumed == s.consumed
  {
    if msg.Some? && IsData(msg.value) { InputsSnoc(s.transcript, OutputRecord(msg.value.bytes)); }
  }

  lemma BatchInput(s: State)
    requires InputInv(s)
    ensures var t := Step(s, TryReceive); InputInv(t) && t.written == s.written
  {
    if s.phase.DrainingScrolls? {
      if s.queue == [] {
        FinishInput(s, s.phase.batch, None, s.sendersGone);
      } else if IsScroll(s.queue[0]) {
        CommandsSnoc(s.consumed, s.queue[0]);
      } else {
        FinishInput(s.(queue := s.queue[1..]), s.phase.batch, Some(s.queue[0]), false);
      }
    }
  }

  lemma FinishInput(s: State, batch: seq<SessionCommand>, deferred: Option<SessionCommand>, disconnected: bool)
    ensures var t := FinishBatch(s, batch, deferred, disconnected);
            && t.written == s.written && t.transcript == s.transcript && t.resizes == s.resizes
            && t.replies == s.replies && t.consumed == s.consumed
  {
  }

  lemma MessageEventInput(s: State, msg: Option<ChannelMsg>)
    requires InputInv(s)
    ensures var t := Step(s, Message(msg)); InputInv(t) && t.written == s.written
  {
    MessageInput(s, msg, s.phase.DrainingOutput?);
  }

  lemma OtherStep(s: State, e: Event)
    requires InputInv(s) && BegunBy(s, e).None?
    ensures var t := Step(s, e); InputInv(t) && t.written == s.written
  {
    match e {
      case Message(msg) => MessageEventInput(s, msg);
      case TryReceive => BatchInput(s);
      case _ =>
    }
  }

  /**
   Over every run: the channel's writer gets, and the transcript records as input, exactly the bytes of
   the commands begun, in order; every resize reaches the terminal and the channel, and every question
   is answered, once and in order.
   */
  lemma {:induction false} InputIsFaithful(events: seq<Event>)
    ensures Run(events).written == Typed(events) == InputsOf(Run(events).transcript)
    ensures Run(events).resizes == GeometriesOf(Run(events).consumed)
    ensures Run(events).replies == RepliesOf(Run(events).consumed)
  {
    if events != [] {
      var init, e := events[..|events| - 1], events[|events| - 1];
      InputIsFaithful(init);
      if BegunBy(Run(init), e).Some? {
        BegunStep(Run(init), e);
      } else {
        OtherStep(Run(init), e);
      }
    }
  }

  /** The command cannot be carried out: its bytes cannot be written, or it cannot be encoded. */
  predicate Fails(command: SessionCommand, effect: Effect) {
    || (InputOf(command, effect) != [] && !effect.writeOk)
    || ((command.Key? || command.Mouse?) && effect.encoded.None?)
  }

  /** After a command the worker stops exactly if it failed, drains if it is a scroll, and else waits again. */
  lemma CommandOutcome(s: State, e: Event)
    requires BegunBy(s, e).Some?
    ensures var command, effect := BegunBy(s, e).value.0, BegunBy(s, e).value.1;
            Step(s, e).phase == if Fails(command, effect) then Stopped(WriteFailed)
                                else if IsScroll(command) then DrainingScrolls([command])
                                else Waiting
  {
  }

  // ---- What is shown ----

  /** The text a control message leaves as exit status. */
  function ExitAfter(s: State, msg: ChannelMsg): Option<ExitText> {
    if msg.ExitStatus? then Some(RemoteStatus(msg.code))
    else if msg.ExitSignal? then Some(RemoteSignal(msg.name))
    else s.exitStatus
  }

  function Closing(s: State): Refresh {
    Refresh(Some(if s.exitStatus.Some? then s.exitStatus.value else SessionClosed), true)
  }

  /** The refreshes a message asks for by itself. */
  function ShownFor(s: State, msg: Option<ChannelMsg>): seq<Refresh> {
    if msg.None? || msg.value.Eof? || msg.value.Close? then [Closing(s)]
    else if msg.value.ExitStatus? || msg.value.ExitSignal? then [Refresh(ExitAfter(s, msg.value), true)]
    else []
  }

  predicate EndsBurst(msg: Option<ChannelMsg>) {
    msg.None? || !IsData(msg.value)
  }

  /**
   What an event adds to what is shown: a resize forces one refresh, the end of a scroll batch or of an
   output burst asks for one, and control messages for their own after it.
   */
  function ShownBy(s: State, e: Event): seq<Refresh> {
    var plain := Refresh(s.exitStatus, false);
    if BegunBy(s, e).Some? && BegunBy(s, e).value.0.Resize? then [Refresh(s.exitStatus, true)]
    else if e.TryReceive? && s.phase.DrainingScrolls? && (s.queue == [] || !IsScroll(s.queue[0])) then [plain]
    else if e.Deadline? && s.phase.DrainingOutput? then [plain]
    else if e.Message? && s.phase.DrainingOutput? && EndsBurst(e.msg) then [plain] + ShownFor(s, e.msg)
    else if e.Message? && s.phase.Waiting? && s.pending.None? && EndsBurst(e.msg) then ShownFor(s, e.msg)
    else []
  }

  lemma MessageShows(s: State, msg: Option<ChannelMsg>, draining: bool)
    ensures MessageStep(s, msg, draining).refreshes
            == s.refreshes + (if EndsBurst(msg)
                              then (if draining then [Refresh(s.exitStatus, false)] else []) + ShownFor(s, msg) else [])
  {
  }

  lemma BeginShows(s: State, command: SessionCommand, effect: Effect)
    ensures Begin(s, command, effect).refreshes
            == s.refreshes + (if command.Resize? then [Refresh(s.exitStatus, true)] else [])
  {
    if !IsScroll(command) {
      ApplyInput(Consume(s, command), command, effect);
    }
  }

  lemma CommandShows(s: State, e: Event)
    requires e.TakePending? || e.Receive?
    ensures Step(s, e).refreshes == s.refreshes + ShownBy(s, e)
  {
    if s.phase.Waiting? && s.pending.Some? {
      BeginShows(s.(pending := None), s.pending.value, e.effect);
    } else if s.phase.Waiting? && s.queue != [] {
      BeginShows(s.(queue := s.queue[1..]), s.queue[0], e.effect);
    }
  }

  lemma BatchShows(s: State)
    ensures Step(s, TryReceive).refreshes == s.refreshes + ShownBy(s, TryReceive)
  {
  }

  lemma MessageEventShows(s: State, msg: Option<ChannelMsg>)
    ensures Step(s, Message(msg)).refreshes == s.refreshes + ShownBy(s, Message(msg))
  {
    MessageShows(s, msg, s.phase.DrainingOutput?);
  }

  lemma ShownStep(s: State, e: Event)
    ensures Step(s, e).refreshes == s.refreshes + ShownBy(s, e)
  {
    match e {
      case TakePending(_) => CommandShows(s, e);
      case Receive(_) => CommandShows(s, e);
      case TryReceive => BatchShows(s);
      case Message(msg) => MessageEventShows(s, msg);
      case _ =>
    }
  }
}
