/** The serial interface as an object: byte by byte in, bytes out, proved against the station of `SerialStation`. */
module SerialInterface {
  import opened Bytes
  import opened Crc32
  import opened CrcNumber
  import opened SerialRx
  import opened SerialFrames
  import opened SerialMessages
  import opened SerialStation

  class SerialInterfaceHandler {
    const maxFrameSize: nat
    const readNumbers: seq<byte> -> Numbers
    const senderMessage: SerialMessage
    const receiverMessage: SerialMessage

    var senderState: SenderState
    var receiverState: ReceiverState
    var currentAckI: int
    var currentAckN: int
    var currentMid: int
    var receivedMid: int
    var needAckMid: int
    var errorCounter: int
    var timeoutCounter: int
    var receiveFrameState: RxState
    var pos: nat
    var frameData: seq<byte>
    var transmitMessages: seq<Outgoing>
    var sentFrameBytes: seq<byte>
    var sentFrameMid: int
    var confirmationTimer: bool

    var written: seq<byte>          // what went to the port
    var delivered: seq<seq<byte>>   // what went to the application
    var announced: seq<int>         // the requests reported as sent
    var alive: bool                 // false after an exception nobody catches

    ghost var sentFrame: Frame
    ghost var serial: nat
    ghost var started: nat
    ghost var completed: seq<nat>

    ghost function SenderView(): Sender
      reads this, senderMessage
    {
      Sender(maxFrameSize, senderState, senderMessage.View(), senderMessage.tid, transmitMessages, currentMid, needAckMid,
             errorCounter, timeoutCounter, sentFrame, confirmationTimer, serial, started, completed, announced)
    }

    ghost function ReceiverView(): Receiver
      reads this, receiverMessage
    {
      Receiver(receiverState, receiverMessage.View(), currentAckI, currentAckN, receivedMid, delivered)
    }

    ghost function View(): Station
      reads this, senderMessage, receiverMessage
    {
      Station(SenderView(), ReceiverView(), alive)
    }

    ghost function RxView(): Rx
      reads this
    {
      Rx(receiveFrameState, frameData)
    }

    /** The bytes kept for a repetition are those of the last payload frame. */
    ghost predicate Sound()
      reads this, senderMessage
    {
      && maxFrameSize > 0 && senderMessage != receiverMessage
      && senderMessage.maxFrameSize == maxFrameSize && receiverMessage.maxFrameSize == maxFrameSize
      && (serial > 0 ==> sentFrameBytes == Encode(sentFrame) && sentFrameMid == sentFrame.mid)
      && (senderState != Idle || confirmationTimer ==> serial > 0)
      && senderMessage.numFrames - senderMessage.transceived == FrameCount(|senderMessage.payload|, maxFrameSize)
    }

    ghost predicate PosSound()
      reads this
    {
      match receiveFrameState
      case WaitForStart => true
      case ReadHeader => pos == |frameData| < HEADER_SIZE && 0 < pos
      case ReadPayload => pos == |frameData| - HEADER_SIZE
    }

    /** What holds between two events, as long as the program runs. */
    ghost predicate Valid()
      reads this, senderMessage, receiverMessage
    {
      Sound() && PosSound() && Settled(View())
    }

    /** The sender went from `before` to `s`, unless the new frame was empty: then that was the end. */
    ghost predicate Sends(before: Sender, s: Sender)
      reads this, senderMessage
    {
      && (alive <==> !WroteEmpty(before, s))
      && SenderView() == (if alive then s else s.(timerArmed := false))
      && (alive ==> Sound())
    }

    constructor (maxFrameSize: nat, readNumbers: seq<byte> -> Numbers)
      requires maxFrameSize > 0
      ensures Valid() && this.maxFrameSize == maxFrameSize && this.readNumbers == readNumbers
      ensures View() == Initial(maxFrameSize) && RxView() == Rx(WaitForStart, []) && written == []
      ensures fresh(senderMessage) && fresh(receiverMessage)
    {
      this.maxFrameSize, this.readNumbers := maxFrameSize, readNumbers;
      senderMessage := new SerialMessage(maxFrameSize);
      receiverMessage := new SerialMessage(maxFrameSize);
      senderState, receiverState, receiveFrameState := Idle, Waiting, WaitForStart;
      currentAckI, currentAckN := 1, 1;
      currentMid, receivedMid, needAckMid := 0, 0, -1;
      errorCounter, timeoutCounter := 0, 0;
      pos, frameData, transmitMessages := 0, [], [];
      sentFrameBytes, sentFrameMid, confirmationTimer := [], 0, false;
      written, delivered, announced, alive := [], [], [], true;
      sentFrame, serial, started, completed := Frame(PAYLOAD, 0, 0, 0, []), 0, 0, [];
      new;
      hide FrameCount, Settled, Encode;
      FrameCountStep(0, maxFrameSize);
      InitialSettled(maxFrameSize);
    }

    method MidHandler()
      modifies this`currentMid
      ensures currentMid == NextMid(old(currentMid))
    {
      currentMid := currentMid + 1;
      if currentMid == MID_LIMIT {
        currentMid := 0;
      }
    }

    /** Header and footer of a frame; the checksum runs over the header first and then continues with the content. */
    static method Envelope(mid: int, kind: byte, i: int, n: int, str: seq<byte>) returns (header: seq<byte>, footer: seq<byte>)
      ensures var f := Frame(kind, mid, i, n, str); EncodeAll([f]) == Encode(f) == header + str + footer
    {
      header := [START, kind] + Field(mid) + Field(i) + Field(n);
      var crc := Crc32.Crc32(0, header);
      crc := Crc32.Crc32(crc, str);
      footer := Hex(Number(crc, 8), 8) + [STOP];
      EncodedInParts(Frame(kind, mid, i, n, str), header, footer);
    }

    /** Writes a frame, and keeps payload frames for a repetition. An empty payload frame is written too, and then an
        exception ends the program. */
    method SendFrame(mid: int, kind: byte, i: int, n: int, str: seq<byte>)
      requires alive
      modifies this`written, this`sentFrameBytes, this`sentFrameMid, this`sentFrame, this`confirmationTimer, this`alive
      ensures alive <==> kind != PAYLOAD || str != []
      ensures var f := Frame(kind, mid, i, n, str);
              && written == old(written) + EncodeAll([f])
              && (if !alive then sentFrame == f && confirmationTimer == old(confirmationTimer)
                  else if kind == PAYLOAD
                  then sentFrame == f && sentFrameBytes == Encode(f) && sentFrameMid == mid && confirmationTimer
                  else sentFrame == old(sentFrame) && sentFrameBytes == old(sentFrameBytes)
                       && sentFrameMid == old(sentFrameMid) && confirmationTimer == old(confirmationTimer))
    {
      hide Encode, EncodeAll;
      ghost var f := Frame(kind, mid, i, n, str);
      var header, footer := Envelope(mid, kind, i, n, str);
      AppendThree(written, header, str, footer);
      written := written + header;
      written := written + str;
      written := written + footer;
      if kind == PAYLOAD {
        sentFrame := f;
        if |str| == 0 {
          alive := false;
          return;
        }
        sentFrameBytes := header + str + footer;
        sentFrameMid := mid;
        confirmationTimer := true;
      }
    }

    method SendConfirmFrame(ack: byte, code: seq<byte>)
      requires Sound() && alive
      modifies this`written, this`sentFrameBytes, this`sentFrameMid, this`sentFrame, this`confirmationTimer, this`alive
      ensures Sound() && alive && SenderView() == old(SenderView()) && ReceiverView() == old(ReceiverView())
      ensures written == old(written) + EncodeAll([Confirmation(ReceiverView(), if ack == ACK then [ACK] else [ack] + code)])
    {
      hide Encode, EncodeAll;
      var str := [ack];
      if ack != ACK {
        str := str + code;
      }
      SendFrame(receivedMid, CONFIRMATION, currentAckI, currentAckN, str);
    }

    method SendPayloadFrame(i: int, n: int, str: seq<byte>)
      requires alive
      modifies this`written, this`sentFrameBytes, this`sentFrameMid, this`sentFrame, this`confirmationTimer, this`alive
      modifies this`currentMid, this`needAckMid, this`serial
      ensures currentMid == needAckMid == NextMid(old(currentMid)) && serial == old(serial) + 1 && (alive <==> str != [])
      ensures var f := Frame(PAYLOAD, currentMid, i, n, str);
              && written == old(written) + EncodeAll([f]) && sentFrame == f
              && (if alive then sentFrameBytes == Encode(f) && sentFrameMid == currentMid && confirmationTimer
                  else confirmationTimer == old(confirmationTimer))
    {
      hide Encode, EncodeAll;
      MidHandler();
      needAckMid := currentMid;
      serial := serial + 1;
      SendFrame(currentMid, PAYLOAD, i, n, str);
    }

    /** Takes the next fragment, if there is one. */
    method NextFragment()
      requires Sound()
      modifies this`senderState, senderMessage
      ensures SenderView() == old(SenderView()).(message := Popped(old(senderMessage.View()), maxFrameSize), state := WaitForAck)
      ensures receiverMessage.View() == old(receiverMessage.View())
      ensures senderMessage.numFrames - senderMessage.transceived == FrameCount(|senderMessage.payload|, maxFrameSize)
    {
      hide Encode, EncodeAll, FrameCount, Fragments;
      if senderMessage.payload != [] {
        PopTakesFragment(senderMessage.View(), maxFrameSize);
      }
      var failed := senderMessage.PopFrame();
      senderState := WaitForAck;
    }

    method SendPayloadFrameFromMessage()
      requires Sound() && alive && !confirmationTimer
      modifies this`written, this`sentFrameBytes, this`sentFrameMid, this`sentFrame, this`confirmationTimer, this`alive
      modifies this`currentMid, this`needAckMid, this`serial, this`senderState, senderMessage
      ensures receiverMessage.View() == old(receiverMessage.View())
      ensures var (s, out) := SendNextFrame(old(SenderView()));
              Sends(old(SenderView()), s) && written == old(written) + EncodeAll(out)
    {
      hide Encode, EncodeAll, FrameCount, Popped, NextMid;
      NextFragment();
      SendPayloadFrame(senderMessage.transceived, senderMessage.numFrames, senderMessage.framePayload);
    }

    method StartNext()
      requires Sound() && alive && !confirmationTimer && transmitMessages != []
      modifies this`written, this`sentFrameBytes, this`sentFrameMid, this`sentFrame, this`confirmationTimer, this`alive
      modifies this`currentMid, this`needAckMid, this`serial, this`senderState, this`transmitMessages, this`started, senderMessage
      ensures receiverMessage.View() == old(receiverMessage.View())
      ensures var (s, out) := StartNextMessage(old(SenderView()));
              Sends(old(SenderView()), s) && written == old(written) + EncodeAll(out)
    {
      hide Encode, EncodeAll;
      var front := transmitMessages[0];
      senderMessage.InitSenderMessage(front.text, front.tid);
      transmitMessages := transmitMessages[1..];
      started := started + 1;
      SendPayloadFrameFromMessage();
    }

    method ResendPayloadFrame()
      requires Sound() && serial > 0
      modifies this`written, this`senderState, this`needAckMid, this`confirmationTimer
      ensures Sound()
      ensures var (s, out) := Resend(old(SenderView()));
              SenderView() == s && written == old(written) + EncodeAll(out)
    {
      hide Encode, EncodeAll;
      OneEncoded(sentFrame);
      written := written + sentFrameBytes;
      senderState := WaitForAck;
      needAckMid := sentFrameMid;
      confirmationTimer := true;
    }

    /** Gives the current message up. */
    method GiveUp()
      requires Sound()
      modifies this`senderState, senderMessage
      ensures Sound() && SenderView() == Abandon(old(SenderView())) && receiverMessage.View() == old(receiverMessage.View())
    {
      hide Encode, EncodeAll;
      assert FrameCount(0, maxFrameSize) == 0;
      senderMessage.Discard();
      senderState := Idle;
    }

    method ErrorInConfirmation()
      requires Sound() && serial > 0
      modifies this`written, this`senderState, this`needAckMid, this`confirmationTimer, this`errorCounter, senderMessage
      ensures Sound() && receiverMessage.View() == old(receiverMessage.View())
      ensures var (s, out) := SerialStation.ErrorInConfirmation(old(SenderView()));
              SenderView() == s && written == old(written) + EncodeAll(out)
    {
      hide Encode, EncodeAll;
      if errorCounter < ERROR_MAX {
        errorCounter := errorCounter + 1;
        ResendPayloadFrame();
      } else {
        GiveUp();
        errorCounter := 0;
        NoneEncoded();
      }
    }

    method CheckQueue()
      requires Sound() && alive && !confirmationTimer
      modifies this`written, this`sentFrameBytes, this`sentFrameMid, this`sentFrame, this`confirmationTimer, this`alive
      modifies this`currentMid, this`needAckMid, this`serial, this`senderState, this`transmitMessages, this`started, senderMessage
      ensures receiverMessage.View() == old(receiverMessage.View())
      ensures var (s, out) := SendFromQueue(old(SenderView()));
              Sends(old(SenderView()), s) && written == old(written) + EncodeAll(out)
    {
      hide Encode, EncodeAll;
      if |transmitMessages| > 0 {
        StartNext();
      } else {
        NoneEncoded();
      }
    }

    /** The sender is idle again, with no errors counted. */
    method ResetErrorCounters()
      requires Sound() && alive
      modifies this`errorCounter, this`timeoutCounter, this`senderState
      ensures Sound() && SenderView() == old(SenderView()).(errors := 0, timeouts := 0, state := Idle)
    {
      hide Encode, FrameCount;
      errorCounter, timeoutCounter := 0, 0;
      senderState := Idle;
    }

    /** The message is through: report an own request. */
    method MessageCompleted()
      requires Sound()
      modifies this`announced, this`completed
      ensures Sound() && SenderView() == Complete(old(SenderView()))
    {
      hide Encode, EncodeAll;
      completed := completed + [started];
      if IsOwnRequest(senderMessage.tid) {
        announced := announced + [senderMessage.tid];
      }
    }

    method FrameConfirmed()
      requires Sound() && alive && !confirmationTimer
      modifies this`written, this`sentFrameBytes, this`sentFrameMid, this`sentFrame, this`confirmationTimer, this`alive
      modifies this`currentMid, this`needAckMid, this`serial, this`senderState, this`transmitMessages, this`started
      modifies this`errorCounter, this`timeoutCounter, this`announced, this`completed, senderMessage
      ensures receiverMessage.View() == old(receiverMessage.View())
      ensures var (s, out) := SerialStation.FrameConfirmed(old(SenderView()));
              Sends(old(SenderView()), s) && written == old(written) + EncodeAll(out)
    {
      hide Encode, EncodeAll, Sound, SendNextFrame, SendFromQueue;
      ResetErrorCounters();
      if senderMessage.transceived < senderMessage.numFrames {
        SendPayloadFrameFromMessage();
      } else {
        MessageCompleted();
        CheckQueue();
      }
    }

    /** The sender's half of the send loop. */
    method RunSender()
      requires Sound() && alive && (senderState == Idle ==> !confirmationTimer)
      modifies this`written, this`sentFrameBytes, this`sentFrameMid, this`sentFrame, this`confirmationTimer, this`alive
      modifies this`currentMid, this`needAckMid, this`serial, this`senderState, this`transmitMessages, this`started
      modifies this`errorCounter, this`timeoutCounter, this`announced, this`completed, senderMessage
      ensures receiverMessage.View() == old(receiverMessage.View())
      ensures var (s, out) := SenderLoop(old(SenderView()), receivedMid);
              Sends(old(SenderView()), s) && written == old(written) + EncodeAll(out)
    {
      hide Encode, EncodeAll, FrameCount, SendFromQueue, SerialStation.FrameConfirmed, SerialStation.ErrorInConfirmation;
      ErrorKeepsSerial(SenderView());
      ErrorKeepsSerial(SenderView().(timerArmed := false));
      match senderState
      case Idle => CheckQueue();
      case WaitForAck => NoneEncoded();
      case GotAck =>
        confirmationTimer := false;
        if receivedMid != needAckMid {
          ErrorInConfirmation();
        } else {
          FrameConfirmed();
        }
      case GotNak =>
        confirmationTimer := false;
        ErrorInConfirmation();
    }

    method AcknowledgePayload()
      requires Sound() && alive && receiverState == GotPayload
      modifies this`written, this`sentFrameBytes, this`sentFrameMid, this`sentFrame, this`confirmationTimer, this`alive
      modifies this`receiverState, this`delivered
      ensures Sound() && alive && SenderView() == old(SenderView())
      ensures var (r, out) := ReceiverLoop(old(ReceiverView()));
              ReceiverView() == r && written == old(written) + EncodeAll(out)
    {
      hide Encode, EncodeAll;
      ghost var r := ReceiverView();
      SendConfirmFrame(ACK, []);
      if receiverMessage.transceived >= receiverMessage.numFrames {
        delivered := delivered + [receiverMessage.payload];
      }
      receiverState := Waiting;
    }

    method RefusePayload()
      requires Sound() && alive && receiverState == WrongCrc
      modifies this`written, this`sentFrameBytes, this`sentFrameMid, this`sentFrame, this`confirmationTimer, this`alive
      modifies this`receiverState, receiverMessage
      ensures Sound() && alive && SenderView() == old(SenderView())
      ensures var (r, out) := ReceiverLoop(old(ReceiverView()));
              ReceiverView() == r && written == old(written) + EncodeAll(out)
    {
      hide Encode, EncodeAll;
      SendConfirmFrame(NAK, CODE_CS);
      receiverMessage.Discard();
      receiverState := Waiting;
    }

    /** The receiver's half of the send loop. */
    method RunReceiver()
      requires Sound() && alive
      modifies this`written, this`sentFrameBytes, this`sentFrameMid, this`sentFrame, this`confirmationTimer, this`alive
      modifies this`receiverState, this`delivered, receiverMessage
      ensures Sound() && alive && SenderView() == old(SenderView())
      ensures var (r, out) := ReceiverLoop(old(ReceiverView()));
              ReceiverView() == r && written == old(written) + EncodeAll(out)
    {
      hide Encode, EncodeAll;
      match receiverState
      case Waiting => NoneEncoded();
      case GotPayload => AcknowledgePayload();
      case WrongCrc => RefusePayload();
    }

    method SenderHalf()
      requires Sound() && alive && (senderState == Idle ==> !confirmationTimer)
      modifies this, senderMessage
      ensures receiveFrameState == old(receiveFrameState) && frameData == old(frameData) && pos == old(pos)
      ensures receiverState == old(receiverState) && currentAckI == old(currentAckI) && currentAckN == old(currentAckN)
      ensures receivedMid == old(receivedMid) && delivered == old(delivered)
      ensures receiverMessage.View() == old(receiverMessage.View())
      ensures Sends(old(SenderView()), SenderLoop(old(SenderView()), old(receivedMid)).0)
      ensures written == old(written) + EncodeAll(SenderLoop(old(SenderView()), old(receivedMid)).1)
    {
      hide Encode, EncodeAll, SenderLoop, ReceiverLoop, Sends, Sound;
      RunSender();
    }

    method ReceiverHalf()
      requires Sound() && alive
      modifies this, receiverMessage
      ensures RxView() == old(RxView()) && pos == old(pos) && Sound() && alive && SenderView() == old(SenderView())
      ensures var (r, out) := ReceiverLoop(old(ReceiverView()));
              ReceiverView() == r && written == old(written) + EncodeAll(out)
    {
      hide Encode, EncodeAll, SenderLoop, ReceiverLoop, WroteEmpty;
      RunReceiver();
    }

    method SendLoop()
      requires Sound() && alive && (senderState == Idle ==> !confirmationTimer)
      modifies this, senderMessage, receiverMessage
      ensures (alive ==> Sound()) && RxView() == old(RxView()) && pos == old(pos)
      ensures var (st, out) := SerialStation.SendLoop(old(View()));
              View() == st && written == old(written) + EncodeAll(out)
    {
      hide Encode, EncodeAll, SenderLoop, ReceiverLoop, WroteEmpty, SerialStation.SendLoop;
      SendLoopInParts(View());
      ghost var st := View();
      SenderHalf();
      if alive {
        ReceiverHalf();
        EncodedTwice(SenderLoop(st.tx, st.rc.receivedMid).1, ReceiverLoop(st.rc).1);
      }
    }

    method PushPayload(f: Received)
      requires Sound() && receivedMid == f.mid
      modifies this`currentAckI, this`currentAckN, this`receiverState, receiverMessage
      ensures Sound() && SenderView() == old(SenderView())
      ensures ReceiverView() == TakePayload(old(ReceiverView()), f)
    {
      hide Encode, EncodeAll;
      if f.index == 1 {
        receiverMessage.InitReceiverMessage(f.number);
      }
      receiverMessage.PushFrame(f.content);
      currentAckI, currentAckN := f.index, f.number;
      receiverState := GotPayload;
    }

    method NotePayloadRefused(f: Received)
      requires Sound()
      modifies this`receivedMid, this`currentAckI, this`currentAckN, this`receiverState
      ensures Sound() && SenderView() == old(SenderView())
      ensures ReceiverView() == Refuse(old(ReceiverView()), f)
    {
      hide Encode, EncodeAll;
      receivedMid := f.mid;
      currentAckI, currentAckN := f.index, f.number;
      receiverState := WrongCrc;
    }

    method DigestDamagedPayload(f: Received)
      requires Sound() && alive && Settled(View()) && f.kind == PAYLOAD && !f.intact
      modifies this, senderMessage, receiverMessage
      ensures RxView() == old(RxView()) && pos == old(pos) && (alive ==> Sound())
      ensures var (st, out) := OnPayload(old(View()), f);
              View() == st && written == old(written) + EncodeAll(out)
    {
      hide Encode, EncodeAll, SerialStation.SendLoop, Refuse;
      NotePayloadRefused(f);
      SendLoop();
    }

    method DigestIntactPayload(f: Received)
      requires Sound() && alive && Settled(View()) && f.kind == PAYLOAD && f.intact
      modifies this, senderMessage, receiverMessage
      ensures RxView() == old(RxView()) && pos == old(pos) && (alive ==> Sound())
      ensures var (st, out) := OnPayload(old(View()), f);
              View() == st && written == old(written) + EncodeAll(out)
    {
      hide Encode, EncodeAll, SerialStation.SendLoop, TakePayload;
      receivedMid := f.mid;
      TakePayloadSetsMid(old(ReceiverView()), f);
      PushPayload(f);
      if |f.content| == 0 {
        alive := false;
        NoneEncoded();
        return;
      }
      SendLoop();
    }

    method DigestConfirmation(f: Received)
      requires Sound() && alive && Settled(View()) && f.kind != PAYLOAD
      modifies this, senderMessage, receiverMessage
      ensures RxView() == old(RxView()) && pos == old(pos) && (alive ==> Sound())
      ensures var (st, out) := OnConfirmation(old(View()), f);
              View() == st && written == old(written) + EncodeAll(out)
    {
      hide Encode, EncodeAll, SerialStation.SendLoop;
      receivedMid := f.mid;
      if f.intact {
        if senderState != WaitForAck {
          senderState := Idle;
        } else if |f.content| == 0 || f.content[0] != ACK {
          senderState := GotNak;
        } else {
          senderState := GotAck;
        }
        SendLoop();
      } else {
        NoneEncoded();
      }
    }

    /** Takes numbers and content out of the frame read and checks the checksum. */
    method ParseFrame() returns (f: Received)
      requires |frameData| > HEADER_SIZE
      ensures f == Read(frameData, readNumbers)
    {
      hide Number, Checksum;
      var numbers := readNumbers(frameData);
      var payloadSize := |frameData| - (HEADER_SIZE + FOOTER_SIZE);
      var crcShould := Crc32.Crc32(0, frameData[..HEADER_SIZE + payloadSize]);
      var content := if payloadSize >= 0 then frameData[HEADER_SIZE..HEADER_SIZE + payloadSize] else frameData[HEADER_SIZE..];
      f := Received(frameData[1], numbers.mid, numbers.index, numbers.number, Number(crcShould, 8) == numbers.crc, content);
    }

    /** Acts on the frame read. */
    method DigestFrame()
      requires Sound() && alive && Settled(View()) && |frameData| > HEADER_SIZE
      modifies this, senderMessage, receiverMessage
      ensures RxView() == old(RxView()) && pos == old(pos) && (alive ==> Sound() && Settled(View()))
      ensures var (st, out) := Act(old(View()), Arrival(Read(old(frameData), readNumbers)));
              View() == st && written == old(written) + EncodeAll(out)
    {
      hide Encode, EncodeAll, OnPayload, OnConfirmation, Read, Settled;
      var f := ParseFrame();
      ActSettles(View(), Arrival(f));
      if f.kind == PAYLOAD {
        if f.intact {
          DigestIntactPayload(f);
        } else {
          DigestDamagedPayload(f);
        }
      } else {
        DigestConfirmation(f);
      }
    }

    /** An empty text ends the program as soon as it is its turn. */
    method SendMessage(text: seq<byte>, tid: int)
      requires Valid() && alive
      modifies this, senderMessage, receiverMessage
      ensures (alive ==> Valid()) && RxView() == old(RxView())
      ensures var (st, out) := Act(old(View()), Submit(Outgoing(text, tid)));
              View() == st && written == old(written) + EncodeAll(out)
    {
      hide Encode, EncodeAll, SerialStation.SendLoop;
      ActSettles(View(), Submit(Outgoing(text, tid)));
      transmitMessages := transmitMessages + [Outgoing(text, tid)];
      SendLoop();
    }

    method RepeatOrGiveUp()
      requires Sound() && confirmationTimer
      modifies this`written, this`senderState, this`needAckMid, this`confirmationTimer, this`timeoutCounter, senderMessage
      ensures Sound() && receiverMessage.View() == old(receiverMessage.View())
      ensures var (s, out) := OnTimeout(old(SenderView()));
              SenderView() == s && written == old(written) + EncodeAll(out)
    {
      hide Encode, EncodeAll;
      confirmationTimer := false;
      timeoutCounter := timeoutCounter + 1;
      if timeoutCounter < TIMEOUT_MAX {
        ResendPayloadFrame();
      } else {
        timeoutCounter := 0;
        GiveUp();
        NoneEncoded();
      }
    }

    /** The timer calls this once when it fires. */
    method ConfirmationTimeoutHandler()
      requires Valid() && alive && confirmationTimer
      modifies this`written, this`senderState, this`needAckMid, this`confirmationTimer, this`timeoutCounter, senderMessage
      ensures Valid()
      ensures var (st, out) := Act(old(View()), ConfirmationTimeout);
              View() == st && written == old(written) + EncodeAll(out)
    {
      hide Encode, EncodeAll, OnTimeout;
      ActSettles(View(), ConfirmationTimeout);
      RepeatOrGiveUp();
    }

    method FtoTimeoutHandler()
      requires Valid() && alive
      modifies this`written, this`sentFrameBytes, this`sentFrameMid, this`sentFrame, this`confirmationTimer, this`alive
      ensures Valid()
      ensures var (st, out) := Act(old(View()), FrameTimeout);
              View() == st && written == old(written) + EncodeAll(out)
    {
      hide Encode, EncodeAll;
      SendConfirmFrame(NAK, CODE_FTO);
    }

    /** A byte outside any frame: a refusal that answers no frame in particular. */
    method RefuseStrayByte()
      requires Sound() && alive && Settled(View())
      modifies this`written, this`sentFrameBytes, this`sentFrameMid, this`sentFrame, this`confirmationTimer, this`alive
      modifies this`currentAckI, this`currentAckN
      ensures Sound() && alive && Settled(View())
      ensures var (st, out) := Act(old(View()), StrayByte);
              View() == st && written == old(written) + EncodeAll(out)
    {
      hide Encode, EncodeAll, Settled;
      ActSettles(View(), StrayByte);
      currentAckI, currentAckN := 1, 1;
      SendConfirmFrame(NAK, CODE_NF);
    }

    method HandleByteOutside(b: byte)
      requires Valid() && alive && receiveFrameState == WaitForStart
      modifies this
      ensures Valid() && alive && View() == Hear(old(View()), old(RxView()), b, readNumbers).0
      ensures RxView() == RxStep(old(RxView()), b).0
      ensures written == old(written) + Hear(old(View()), old(RxView()), b, readNumbers).2
    {
      hide Encode, EncodeAll, Act;
      hide Settled;
      if b == START {
        receiveFrameState := ReadHeader;
        frameData := [b];
        pos := 1;
      } else {
        RefuseStrayByte();
      }
    }

    method ReadOn(b: byte)
      requires Valid() && receiveFrameState == ReadPayload
      modifies this`frameData, this`pos
      ensures Valid() && View() == old(View()) && frameData == old(frameData) + [b]
    {
      hide Encode, EncodeAll;
      frameData := frameData + [b];
      pos := pos + 1;
    }

    method EndFrame()
      requires Sound() && Settled(View())
      modifies this`receiveFrameState, this`pos
      ensures Valid() && View() == old(View()) && RxView() == Rx(WaitForStart, frameData)
    {
      hide Encode, EncodeAll;
      receiveFrameState := WaitForStart;
      pos := 0;
    }

    method HandleByteInside(b: byte)
      requires Valid() && alive && receiveFrameState != WaitForStart
      requires receiveFrameState == ReadPayload ==> b != STOP
      modifies this`pos, this`frameData, this`receiveFrameState
      ensures Valid() && View() == old(View()) && RxStep(old(RxView()), b) == (RxView(), [])
    {
      hide Encode, EncodeAll, Act;
      if receiveFrameState == ReadHeader {
        pos := pos + 1;
        frameData := frameData + [b];
        if pos >= HEADER_SIZE {
          receiveFrameState := ReadPayload;
          pos := 0;
        }
      } else {
        ReadOn(b);
      }
    }

    method HandleLastByte(b: byte)
      requires Valid() && alive && receiveFrameState == ReadPayload && b == STOP
      modifies this, senderMessage, receiverMessage
      ensures alive ==> Valid() && RxView() == RxStep(old(RxView()), b).0
      ensures var (st, out) := Act(old(View()), Arrival(Read(old(frameData) + [b], readNumbers)));
              View() == st && written == old(written) + EncodeAll(out)
    {
      hide Encode, EncodeAll, Act, Read;
      ReadOn(b);
      DigestFrame();
      if alive {
        EndFrame();
      }
    }

    /** One byte from the line. */
    method HandleByte(b: byte)
      requires Valid() && alive
      modifies this, senderMessage, receiverMessage
      ensures alive ==> Valid()
      ensures RxValid(old(RxView()))
      ensures var (st, rx, out) := Hear(old(View()), old(RxView()), b, readNumbers);
              View() == st && (alive ==> RxView() == rx) && written == old(written) + out
    {
      hide Encode, EncodeAll, Act;
      if receiveFrameState == WaitForStart {
        HandleByteOutside(b);
      } else if receiveFrameState == ReadPayload && b == STOP {
        HandleLastByte(b);
      } else {
        HandleByteInside(b);
        assert old(written) + [] == written;
      }
    }

    /** What the port hands over, byte by byte; an exception leaves the loop. */
    method HandleInputData(data: seq<byte>)
      requires Valid() && alive
      modifies this, senderMessage, receiverMessage
      ensures alive ==> Valid()
      ensures RxValid(old(RxView()))
      ensures var (st, rx, out) := HearAll(old(View()), old(RxView()), data, readNumbers);
              View() == st && (alive ==> RxView() == rx) && written == old(written) + out
    {
      hide Encode, EncodeAll, Act, Hear, HearAll;
      ghost var st0, rx0 := View(), RxView();
      HearNothing(st0, rx0, readNumbers);
      var k := 0;
      while k < |data| && alive
        invariant 0 <= k <= |data| && (alive ==> Valid())
        invariant var (st, rx, out) := HearAll(st0, rx0, data[..k], readNumbers);
                  View() == st && (alive ==> RxView() == rx) && written == old(written) + out
      {
        ghost var out := HearAll(st0, rx0, data[..k], readNumbers).2;
        HearAllSnoc(st0, rx0, data[..k], data[k], readNumbers);
        assert data[..k] + [data[k]] == data[..k + 1];
        HandleByte(data[k]);
        k := k + 1;
      }
      HearAllSplit(st0, rx0, data[..k], data[k..], readNumbers);
      assert data[..k] + data[k..] == data;
    }
  }

  lemma EncodedInParts(f: Frame, header: seq<byte>, footer: seq<byte>)
    requires header == [START, f.kind] + Field(f.mid) + Field(f.index) + Field(f.number)
    requires footer == Hex(Number(Checksum(Checksum(0, header), f.content), 8), 8) + [STOP]
    ensures EncodeAll([f]) == Encode(f) == header + f.content + footer
  {
    OneEncoded(f);
  }

  lemma ErrorKeepsSerial(s: Sender)
    ensures SerialStation.ErrorInConfirmation(s).0.serial == s.serial
  {
  }

  lemma SendLoopInParts(st: Station)
    requires st.tx.maxFrameSize > 0
    ensures var (tx, out1) := SenderLoop(st.tx, st.rc.receivedMid);
            var (rc, out2) := ReceiverLoop(st.rc);
            SerialStation.SendLoop(st) == if WroteEmpty(st.tx, tx) then (Station(tx.(timerArmed := false), st.rc, false), out1)
                                          else (Station(tx, rc, st.alive), out1 + out2)
  {
  }

  lemma EncodedTwice(a: seq<Frame>, b: seq<Frame>)
    ensures EncodeAll(a + b) == EncodeAll(a) + EncodeAll(b)
  {
    EachAppend(Encode, a, b);
    JoinAppend(Each(Encode, a), Each(Encode, b));
  }

  lemma TakePayloadSetsMid(r: Receiver, f: Received)
    ensures TakePayload(r.(receivedMid := f.mid), f) == TakePayload(r, f)
  {
  }

  lemma HearNothing(st: Station, rx: Rx, read: seq<byte> -> Numbers)
    requires st.tx.maxFrameSize > 0 && RxValid(rx)
    ensures HearAll(st, rx, [], read) == (st, rx, [])
  {
  }

  /** A program that ended does nothing with the rest. */
  lemma {:induction false} HearAllSplit(st: Station, rx: Rx, data: seq<byte>, rest: seq<byte>, read: seq<byte> -> Numbers)
    requires st.tx.maxFrameSize > 0 && RxValid(rx)
    ensures var (st1, rx1, out) := HearAll(st, rx, data, read);
            && (rest == [] ==> HearAll(st, rx, data + rest, read) == (st1, rx1, out))
            && (!st1.alive ==> HearAll(st, rx, data + rest, read).0 == st1 && HearAll(st, rx, data + rest, read).2 == out)
    decreases |data| + |rest|
  {
    if rest == [] {
      assert data + rest == data;
    } else {
      var b, data' := rest[|rest| - 1], data + rest[..|rest| - 1];
      HearAllSplit(st, rx, data, rest[..|rest| - 1], read);
      HearAllSnoc(st, rx, data', b, read);
      assert data + rest == data' + [b];
      assert forall s: seq<byte> :: s + [] == s;
    }
  }

  lemma NoneEncoded()
    ensures EncodeAll([]) == []
  {
  }

  lemma OneEncoded(f: Frame)
    ensures EncodeAll([f]) == Encode(f)
  {
    assert [f][1..] == [];
    assert Each(Encode, [f]) == [Encode(f)];
    JoinSingle(Encode(f));
  }
}
