/** The byte pump between a TCP stream and an SSH channel of a port forward. */
module Proxy {
  import opened SessionCommands

  type Bytes = seq<byte>

  const BUFFER_SIZE: nat := 64 * 1024

  /** What one `select!` may find, and whether the write it leads to succeeds. */
  datatype Choice =
    | SocketRead(chunk: Bytes, sendOk: bool)
    | SocketEof
    | SocketError
    | ChannelData(bytes: Bytes, writeOk: bool)
    | ChannelEof
    | ChannelClosed
    | ChannelOther

  datatype ChannelAction = SendData(bytes: Bytes) | SendEof | SendClose

  datatype Outcome = Pumping | Finished | ChannelFailed | SocketFailed

  /**
   `shutDown`: the socket was told that nothing more will be written. `socketIn` and `channelIn` record
   the chunks that arrived, for the statements below.
   */
  datatype State = State(
    outcome: Outcome,
    streamClosed: bool,
    shutDown: bool,
    channelOut: seq<ChannelAction>,
    socketOut: seq<Bytes>,
    recordedIn: nat,
    recordedOut: nat,
    socketIn: seq<Bytes>,
    channelIn: seq<Bytes>)

  function Init(): State {
    State(Pumping, false, false, [], [], 0, 0, [], [])
  }

  /** The socket side of the `select!` is off once the stream counts as closed. */
  predicate Possible(s: State, c: Choice) {
    && s.outcome.Pumping?
    && (c.SocketRead? || c.SocketEof? || c.SocketError? ==> !s.streamClosed)
    && (c.SocketRead? ==> 0 < |c.chunk| <= BUFFER_SIZE)
  }

  function Step(s: State, c: Choice): State {
    if !Possible(s, c) then s else
      match c
      case SocketRead(chunk, sendOk) =>
        var r := s.(recordedIn := s.recordedIn + |chunk|, socketIn := s.socketIn + [chunk]);
        if sendOk then r.(channelOut := r.channelOut + [SendData(chunk)]) else r.(outcome := ChannelFailed)
      case SocketEof => s.(streamClosed := true, channelOut := s.channelOut + [SendEof])
      case SocketError => s.(outcome := SocketFailed)
      case ChannelData(bytes, writeOk) =>
        var r := s.(recordedOut := s.recordedOut + |bytes|, channelIn := s.channelIn + [bytes]);
        if writeOk then r.(socketOut := r.socketOut + [bytes]) else r.(outcome := SocketFailed)
      case ChannelEof => s.(streamClosed := true, shutDown := true)
      case ChannelClosed => s.(outcome := Finished, channelOut := s.channelOut + [SendEof, SendClose])
      case ChannelOther => s
  }

  function Run(choices: seq<Choice>): State {
    if choices == [] then Init() else Step(Run(choices[..|choices| - 1]), choices[|choices| - 1])
  }

  method ProxyTcpStreamAndChannel(choices: seq<Choice>) returns (s: State)
    ensures s == Run(choices)
  {
    var streamClosed, shutDown := false, false;
    var outcome := Pumping;
    var channelOut, socketOut := [], [];
    var recordedIn: nat, recordedOut: nat := 0, 0;
    var socketIn, channelIn := [], [];
    for i := 0 to |choices|
      invariant State(outcome, streamClosed, shutDown, channelOut, socketOut, recordedIn, recordedOut, socketIn,
                  channelIn)
             == Run(choices[..i])
    {
      assert choices[..i + 1][..i] == choices[..i];
      if outcome.Pumping? {
        match choices[i] {
          case SocketRead(chunk, sendOk) =>
            if !streamClosed && 0 < |chunk| <= BUFFER_SIZE {
              recordedIn := recordedIn + |chunk|;
              socketIn := socketIn + [chunk];
              if sendOk {
                channelOut := channelOut + [SendData(chunk)];
              } else {
                outcome := ChannelFailed;
              }
            }
          case SocketEof =>
            if !streamClosed {
              streamClosed := true;
              channelOut := channelOut + [SendEof];
            }
          case SocketError =>
            if !streamClosed {
              outcome := SocketFailed;
            }
          case ChannelData(bytes, writeOk) =>
            recordedOut := recordedOut + |bytes|;
            channelIn := channelIn + [bytes];
            if writeOk {
              socketOut := socketOut + [bytes];
            } else {
              outcome := SocketFailed;
            }
          case ChannelEof =>
            shutDown := true;
            streamClosed := true;
          case ChannelClosed =>
            outcome := Finished;
            channelOut := channelOut + [SendEof, SendClose];
          case ChannelOther =>
        }
      }
    }
    assert choices[..|choices|] == choices;
    s := State(outcome, streamClosed, shutDown, channelOut, socketOut, recordedIn, recordedOut, socketIn, channelIn);
  }

  // ---- What every run keeps ----

  function DataSent(actions: seq<ChannelAction>): seq<Bytes> {
    if actions == [] then []
    else DataSent(actions[..|actions| - 1])
         + (if actions[|actions| - 1].SendData? then [actions[|actions| - 1].bytes] else [])
  }

  function Size(chunks: seq<Bytes>): nat {
    if chunks == [] then 0 else Size(chunks[..|chunks| - 1]) + |chunks[|chunks| - 1]|
  }

  /** What was passed on is what arrived, or lacks just the last chunk, whose write failed. */
  ghost predicate Forwarded(arrived: seq<Bytes>, passed: seq<Bytes>, failed: bool) {
    passed == arrived || (failed && arrived != [] && passed == arrived[..|arrived| - 1])
  }

  ghost predicate NoDataAfterEof(actions: seq<ChannelAction>) {
    forall i, j | 0 <= i < j < |actions| :: !actions[i].SendData? ==> !actions[j].SendData?
  }

  ghost predicate UploadInv(s: State) {
    && Forwarded(s.socketIn, DataSent(s.channelOut), s.outcome.ChannelFailed?)
    && s.recordedIn == Size(s.socketIn)
  }

  ghost predicate DownloadInv(s: State) {
    && Forwarded(s.channelIn, s.socketOut, s.outcome.SocketFailed?)
    && s.recordedOut == Size(s.channelIn)
  }

  ghost predicate EofInv(s: State) {
    && NoDataAfterEof(s.channelOut)
    && (s.outcome.Pumping? && !s.streamClosed ==> forall a | a in s.channelOut :: a.SendData?)
    && (s.outcome.Finished? ==> |s.channelOut| >= 2 && s.channelOut[|s.channelOut| - 2..] == [SendEof, SendClose])
    && (!s.outcome.Finished? ==> SendClose !in s.channelOut)
  }

  lemma DataSentSnoc(actions: seq<ChannelAction>, a: ChannelAction)
    ensures DataSent(actions + [a]) == DataSent(actions) + (if a.SendData? then [a.bytes] else [])
  {
    assert (actions + [a])[..|actions|] == actions;
  }

  lemma SizeSnoc(chunks: seq<Bytes>, chunk: Bytes)
    ensures Size(chunks + [chunk]) == Size(chunks) + |chunk|
  {
    assert (chunks + [chunk])[..|chunks|] == chunks;
  }

  lemma ReadKeepsUpload(s: State, c: Choice)
    requires UploadInv(s) && Possible(s, c) && c.SocketRead?
    ensures UploadInv(Step(s, c))
  {
    DataSentSnoc(s.channelOut, SendData(c.chunk));
    SizeSnoc(s.socketIn, c.chunk);
    assert (s.socketIn + [c.chunk])[..|s.socketIn|] == s.socketIn;
  }

  lemma UploadStep(s: State, c: Choice)
    requires UploadInv(s)
    ensures UploadInv(Step(s, c))
  {
    if Possible(s, c) {
      match c {
        case SocketRead(_, _) => ReadKeepsUpload(s, c);
        case SocketEof => DataSentSnoc(s.channelOut, SendEof);
        case ChannelClosed => ClosingSendsNoData(s.channelOut);
        case _ =>
      }
    }
  }

  lemma ClosingSendsNoData(actions: seq<ChannelAction>)
    ensures DataSent(actions + [SendEof, SendClose]) == DataSent(actions)
  {
    DataSentSnoc(actions, SendEof);
    DataSentSnoc(actions + [SendEof], SendClose);
    assert actions + [SendEof, SendClose] == actions + [SendEof] + [SendClose];
  }

  lemma DownloadStep(s: State, c: Choice)
    requires DownloadInv(s)
    ensures DownloadInv(Step(s, c))
  {
    var s' := Step(s, c);
    if Possible(s, c) {
      assert s.socketOut == s.channelIn;
      if c.ChannelData? {
        SizeSnoc(s.channelIn, c.bytes);
        assert s'.channelIn[..|s.channelIn|] == s.channelIn;
      } else {
        assert s'.channelIn == s.channelIn && s'.socketOut == s.socketOut;
      }
    }
  }

  /** Actions that are no data may be added at any time. */
  lemma NoDataAdded(actions: seq<ChannelAction>, more: seq<ChannelAction>)
    requires NoDataAfterEof(actions) && forall a | a in more :: !a.SendData?
    ensures NoDataAfterEof(actions + more)
  {
    var all := actions + more;
    forall i, j | 0 <= i < j < |all| && !all[i].SendData? ensures !all[j].SendData? {
      if j >= |actions| { assert all[j] in more; }
    }
  }

  /** Data may be added as long as there is nothing else. */
  lemma DataAdded(actions: seq<ChannelAction>, chunk: Bytes)
    requires forall a | a in actions :: a.SendData?
    ensures NoDataAfterEof(actions + [SendData(chunk)])
    ensures forall a | a in actions + [SendData(chunk)] :: a.SendData?
  {
    var all := actions + [SendData(chunk)];
    forall i | 0 <= i < |all| ensures all[i].SendData? {
      if i < |actions| { assert all[i] in actions; }
    }
  }

  lemma EofStep(s: State, c: Choice)
    requires EofInv(s)
    ensures EofInv(Step(s, c))
  {
    if Possible(s, c) {
      match c {
        case SocketRead(chunk, _) => DataAdded(s.channelOut, chunk);
        case SocketEof => NoDataAdded(s.channelOut, [SendEof]);
        case ChannelClosed => NoDataAdded(s.channelOut, [SendEof, SendClose]);
        case _ =>
      }
    }
  }

  /**
   Over every run, in each direction, chunks are passed on in order and unchanged, at most the last
   one missing after a failed write; every byte read is recorded; no data follows our EOF
   (section 5.3 of RFC 4254); a finished pump has closed the channel and an unfinished one has not.
   */
  lemma {:induction false} PumpIsFaithful(choices: seq<Choice>)
    ensures UploadInv(Run(choices))
    ensures DownloadInv(Run(choices))
    ensures EofInv(Run(choices))
  {
    if choices != [] {
      PumpIsFaithful(choices[..|choices| - 1]);
      UploadStep(Run(choices[..|choices| - 1]), choices[|choices| - 1]);
      DownloadStep(Run(choices[..|choices| - 1]), choices[|choices| - 1]);
      EofStep(Run(choices[..|choices| - 1]), choices[|choices| - 1]);
    }
  }

  lemma {:induction false} ClosedStreamStays(choices: seq<Choice>, more: seq<Choice>)
    requires Run(choices).streamClosed
    ensures Run(choices + more).streamClosed
    ensures Run(choices + more).socketIn == Run(choices).socketIn
    ensures DataSent(Run(choices + more).channelOut) == DataSent(Run(choices).channelOut)
    decreases |more|
  {
    if more == [] {
      assert choices + more == choices;
    } else {
      var n := |more| - 1;
      ClosedStreamStays(choices, more[..n]);
      assert (choices + more)[..|choices| + n] == choices + more[..n];
      var s := Run(choices + more[..n]);
      ClosingSendsNoData(s.channelOut);
    }
  }

  /**
   The peer's EOF ends both directions: after it nothing more is read from the socket or sent on
   the channel, although section 5.3 of RFC 4254 leaves that direction open.
   */
  lemma PeerEofStopsUpload(choices: seq<Choice>, more: seq<Choice>)
    requires Run(choices).outcome.Pumping?
    ensures var s := Run(choices + [ChannelEof] + more);
            s.socketIn == Run(choices).socketIn && DataSent(s.channelOut) == DataSent(Run(choices).channelOut)
  {
    assert (choices + [ChannelEof])[..|choices|] == choices;
    ClosedStreamStays(choices + [ChannelEof], more);
  }

  // ---- Exactly what the channel is told ----

  /** The socket came to its end while the pump was reading it. */
  predicate SocketEnded(choices: seq<Choice>) {
    choices != [] &&
      var init, last := choices[..|choices| - 1], choices[|choices| - 1];
      SocketEnded(init) || (last.SocketEof? && Possible(Run(init), last))
  }

  /** The peer said that it will send nothing more. */
  predicate PeerEnded(choices: seq<Choice>) {
    choices != [] &&
      var init, last := choices[..|choices| - 1], choices[|choices| - 1];
      PeerEnded(init) || (last.ChannelEof? && Possible(Run(init), last))
  }

  function Sends(chunks: seq<Bytes>): seq<ChannelAction> {
    seq(|chunks|, i requires 0 <= i < |chunks| => SendData(chunks[i]))
  }

  function Told(s: State, socketEnded: bool): seq<ChannelAction> {
    Sends(DataSent(s.channelOut))
    + (if socketEnded then [SendEof] else [])
    + (if s.outcome.Finished? then [SendEof, SendClose] else [])
  }

  ghost predicate ToldInv(s: State, socketEnded: bool, peerEnded: bool) {
    && s.channelOut == Told(s, socketEnded)
    && (s.streamClosed <==> socketEnded || peerEnded)
    && (s.shutDown <==> peerEnded)
  }

  lemma SendsSnoc(chunks: seq<Bytes>, chunk: Bytes)
    ensures Sends(chunks + [chunk]) == Sends(chunks) + [SendData(chunk)]
  {
  }

  lemma ToldStep(s: State, c: Choice, socketEnded: bool, peerEnded: bool)
    requires ToldInv(s, socketEnded, peerEnded)
    ensures ToldInv(Step(s, c), socketEnded || (c.SocketEof? && Possible(s, c)),
                    peerEnded || (c.ChannelEof? && Possible(s, c)))
  {
    if Possible(s, c) {
      var data := DataSent(s.channelOut);
      match c {
        case SocketRead(chunk, _) =>
          DataSentSnoc(s.channelOut, SendData(chunk));
          SendsSnoc(data, chunk);
        case SocketEof => DataSentSnoc(s.channelOut, SendEof);
        case ChannelClosed => ClosingSendsNoData(s.channelOut);
        case _ =>
      }
    }
  }

  /**
   Over every run the channel is told exactly this: the data, then our EOF once if the socket ended,
   then EOF and close once the peer has closed. The socket is shut down exactly after the peer's EOF.
   */
  lemma {:induction false} ChannelIsToldExactly(choices: seq<Choice>)
    ensures var s := Run(choices);
            && s.channelOut == Told(s, SocketEnded(choices))
            && (s.streamClosed <==> SocketEnded(choices) || PeerEnded(choices))
            && (s.shutDown <==> PeerEnded(choices))
  {
    if choices != [] {
      var init, last := choices[..|choices| - 1], choices[|choices| - 1];
      ChannelIsToldExactly(init);
      ToldStep(Run(init), last, SocketEnded(init), PeerEnded(init));
    }
  }

  /** The pump ends with the channel, a failed read or a failed write, and with nothing else. */
  lemma OutcomeStep(s: State, c: Choice)
    ensures !Possible(s, c) || c.ChannelOther? ==> Step(s, c) == s
    ensures Possible(s, c) ==>
              Step(s, c).outcome == if c.ChannelClosed? then Finished
                                    else if c.SocketError? || (c.ChannelData? && !c.writeOk) then SocketFailed
                                    else if c.SocketRead? && !c.sendOk then ChannelFailed
                                    else Pumping
  {
  }
}
