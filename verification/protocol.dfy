/** The session with the docking station: a probe of the channel, a wait for
    the unit, identification, the data fetch, an optional counter reset and a
    final poll or wait for removal.  The USB transport is a script of
    results, one consumed per transfer or reset, and everything the session
    does is a trace of events. */
module Protocol {
  import opened Bytes
  import opened Decimal
  import opened Config
  import opened Telemetry

  /** Timeouts in milliseconds: polls are quick; the other commands are slow
      and their replies get twice the write timeout. */
  const ShortTimeout: nat := 1000
  const WriteTimeout: nat := 6000
  const ReadTimeout: nat := 2 * WriteTimeout

  /** Identification byte 1 of the one unit model this release supports. */
  const SupportedUnit: Byte := 0x15

  const PollReplyLength: nat := 1
  const IdentReplyLength: nat := 11

  datatype Command = Poll | Identify | Fetch | ClearCounters

  /** The bytes written for a command: one byte, except the two-byte clear. */
  function CommandBytes(c: Command): (b: seq<Byte>)
    ensures 1 <= |b| <= 2 && b[0] >= 0xF0
    ensures |b| == 2 <==> c == ClearCounters
  {
    match c
    case Poll => [0xF4]
    case Identify => [0xFE]
    case Fetch => [0xFB]
    case ClearCounters => [0xF0, 0x02]
  }

  /** The cradle can tell the commands apart: no two share their bytes. */
  lemma CommandBytesInjective(a: Command, b: Command)
    requires CommandBytes(a) == CommandBytes(b)
    ensures a == b
  {
    assert CommandBytes(a)[0] == CommandBytes(b)[0];
  }

  /** What the session asks of the transport: a bulk write of a command's
      bytes, a bulk read, or a reset of the channel. */
  datatype Call =
    | Write(bytes: seq<Byte>, timeout: nat)
    | Read(timeout: nat)
    | Reset

  /** What the transport answers: the bytes read (ignored for a write or a
      reset), a timeout, or any other failure. */
  datatype Result = Ok(data: seq<Byte>) | Timeout | OtherError

  /** Why a session gave up. */
  datatype Fault =
    | TransportError(call: Call)           // the transfer or reset itself failed
    | WrongLength(expected: nat, got: nat) // a reply of the wrong size
    | NoUnit                               // identification byte 1 is zero
    | ClearRefused(code: Byte)             // the clear command answered nonzero

  /** Where the session is: each non-final phase issues exactly one call. */
  datatype Phase =
    | Probe                    // quick poll to see whether the channel answers
    | ProbeRead                // its answer
    | ChannelReset             // the probe timed out: reset the channel once
    | AwaitPoll(notYet: bool)  // poll while waiting for the unit
    | AwaitReply(notYet: bool) // `notYet`: the empty cradle is not reported yet
    | IdentifyCmd
    | IdentifyReply
    | FetchCmd
    | FetchReply
    | ClearCmd
    | ClearReply
    | PatPoll                  // the final poll, or the removal loop
    | PatReply
    | Completed
    | Aborted(fault: Fault)

  predicate Terminal(ph: Phase) {
    ph.Completed? || ph.Aborted?
  }

  predicate Probing(ph: Phase) {
    ph == Probe || ph == ProbeRead
  }

  /** The call a phase issues. */
  function Action(ph: Phase): Call
    requires !Terminal(ph)
  {
    match ph
    case Probe => Write(CommandBytes(Poll), ShortTimeout)
    case ProbeRead => Read(ShortTimeout)
    case ChannelReset => Reset
    case AwaitPoll(_) => Write(CommandBytes(Poll), ShortTimeout)
    case AwaitReply(_) => Read(ShortTimeout)
    case IdentifyCmd => Write(CommandBytes(Identify), WriteTimeout)
    case IdentifyReply => Read(ReadTimeout)
    case FetchCmd => Write(CommandBytes(Fetch), WriteTimeout)
    case FetchReply => Read(ReadTimeout)
    case ClearCmd => Write(CommandBytes(ClearCounters), WriteTimeout)
    case ClearReply => Read(ReadTimeout)
    case PatPoll => Write(CommandBytes(Poll), ShortTimeout)
    case PatReply => Read(ShortTimeout)
  }

  /** Every write is one of the four commands; the polls, and only they, get
      the short timeout, and only the counter reset writes two bytes. */
  lemma PhaseWrites(ph: Phase)
    requires !Terminal(ph) && Action(ph).Write?
    ensures Action(ph).bytes == CommandBytes(Poll) <==> Action(ph).timeout == ShortTimeout
    ensures Action(ph).bytes == CommandBytes(Poll) || Action(ph).bytes == CommandBytes(Identify)
         || Action(ph).bytes == CommandBytes(Fetch) || Action(ph).bytes == CommandBytes(ClearCounters)
    ensures |Action(ph).bytes| == 2 <==> ph == ClearCmd
  {
  }

  predicate IsRead(ph: Phase) {
    !Terminal(ph) && Action(ph).Read?
  }

  /** The reply length a read phase insists on. */
  function Expected(ph: Phase): nat
    requires IsRead(ph)
  {
    match ph
    case IdentifyReply => IdentReplyLength
    case FetchReply => ReplyLength
    case _ => PollReplyLength
  }

  /** Progress order of the phases; only the two polling loops step back. */
  function Rank(ph: Phase): nat {
    match ph
    case Probe => 0
    case ProbeRead => 1
    case ChannelReset => 2
    case AwaitPoll(_) => 3
    case AwaitReply(_) => 4
    case IdentifyCmd => 5
    case IdentifyReply => 6
    case FetchCmd => 7
    case FetchReply => 8
    case ClearCmd => 9
    case ClearReply => 10
    case PatPoll => 11
    case PatReply => 12
    case Completed => 13
    case Aborted(_) => 13
  }

  /** Diagnostics the session writes on its way. */
  datatype Note =
    | ResettingChannel
    | UnitFound
    | CradleEmpty
    | ReservedIdentBytes                 // identification bytes 7-10 not all zero
    | Identified(kind: Byte, version: Byte)
    | UnknownUnit(code: Byte)            // a nonzero unit byte other than the supported one
    | SerialNumber(serial: seq<Byte>)    // identification bytes 2-5
    | CountersCleared
    | WaitingRemoval
    | UnitRemoved

  /** What a step writes or does besides its one transfer. */
  datatype Output =
    | Notice(note: Note)
    | HexDump(packet: seq<Byte>)
    | Decoded(reply: seq<Byte>, units: Units)  // the decoder run on a data reply
    | Sleep(ms: nat)


  datatype StepOut = StepOut(next: Phase, outputs: seq<Output>)

  /** Whether some output is a decoder run. */
  predicate Reports(os: seq<Output>) {
    exists o :: o in os && o.Decoded?
  }

  // ----- one step

  /** How the serial number is written: its four bytes, each in decimal,
      with nothing between them. */
  function SerialText(serial: seq<Byte>): (s: string)
    requires |serial| == 4
    ensures AllDigits(s) && 4 <= |s|
  {
    Dec(serial[0]) + Dec(serial[1]) + Dec(serial[2]) + Dec(serial[3])
  }

  /** Written without separators, the serial number does not determine its
      bytes: 1, 23 and 12, 3 print alike. */
  lemma SerialTextAmbiguous()
    ensures SerialText([1, 23, 4, 5]) == SerialText([12, 3, 4, 5]) == "12345"
  {
    assert Dec(1) == "1" && Dec(3) == "3" && Dec(4) == "4" && Dec(5) == "5";
    assert Dec(12) == Dec(1) + [DigitChar(2)] && Dec(23) == Dec(2) + [DigitChar(3)];
  }

  /** The phase after a successful write or reset. */
  function Following(ph: Phase): (next: Phase)
    requires !Terminal(ph) && !IsRead(ph) && ph != Probe
    ensures next != ChannelReset && !Probing(next) && !Terminal(next)
  {
    match ph
    case AwaitPoll(n) => AwaitReply(n)
    case IdentifyCmd => IdentifyReply
    case FetchCmd => FetchReply
    case ClearCmd => ClearReply
    case PatPoll => PatReply
    case _ => AwaitPoll(true)
  }

  /** The probe: a timeout on the poll or on its answer leads to the channel
      reset; any other failure, or an answer that is not one byte, ends the
      session. */
  function ProbeStep(ph: Phase, res: Result): (next: Phase)
    requires Probing(ph)
    ensures next == ChannelReset <==> res == Timeout
    ensures res == OtherError ==> next == Aborted(TransportError(Action(ph)))
    ensures ph == Probe && res.Ok? ==> next == ProbeRead
    ensures ph == ProbeRead && res.Ok?
            ==> next == (if |res.data| == PollReplyLength then AwaitPoll(true)
                         else Aborted(WrongLength(PollReplyLength, |res.data|)))
  {
    match res
    case Timeout => ChannelReset
    case OtherError => Aborted(TransportError(Action(ph)))
    case Ok(d) =>
      if ph == Probe then ProbeRead
      else if |d| != PollReplyLength then Aborted(WrongLength(PollReplyLength, |d|))
      else AwaitPoll(true)
  }

  /** The answer to a poll while waiting: 1 means the unit is there; anything
      else is an empty cradle, reported the first time only, and a pause. */
  function Arrival(notYet: bool, b: Byte): (o: StepOut)
    ensures o.next == (if b == 1 then IdentifyCmd else AwaitPoll(false))
  {
    if b == 1 then StepOut(IdentifyCmd, [Notice(UnitFound)])
    else StepOut(AwaitPoll(false), (if notYet then [Notice(CradleEmpty)] else []) + [Sleep(ShortTimeout)])
  }

  lemma ArrivalOutputs(notYet: bool, b: Byte)
    ensures var os := Arrival(notYet, b).outputs;
      && (Notice(UnitFound) in os <==> b == 1)
      && (Notice(CradleEmpty) in os <==> notYet && b != 1)
      && (Sleep(ShortTimeout) in os <==> b != 1)
      && !Reports(os)
  {
  }

  /** Identification bytes 7-10 are expected to be zero. */
  predicate ReservedInUse(d: seq<Byte>)
    requires |d| == IdentReplyLength
  {
    d[7] != 0 || d[8] != 0 || d[9] != 0 || d[10] != 0
  }

  /** What is written about a present unit: its kind, or a warning for an
      unknown nonzero unit byte, and then the serial number. */
  function UnitNotes(d: seq<Byte>): seq<Output>
    requires |d| == IdentReplyLength && d[1] != 0
  {
    var kind := if d[1] == SupportedUnit then Identified(d[0], d[6]) else UnknownUnit(d[1]);
    [Notice(kind), Notice(SerialNumber(d[2..6]))]
  }

  lemma UnitNotesSpec(d: seq<Byte>)
    requires |d| == IdentReplyLength && d[1] != 0
    ensures var os := UnitNotes(d);
      && (Notice(Identified(d[0], d[6])) in os <==> d[1] == SupportedUnit)
      && (Notice(UnknownUnit(d[1])) in os <==> d[1] != SupportedUnit)
      && Notice(SerialNumber(d[2..6])) in os
      && forall o :: o in os ==> o.Notice? && o.note != CradleEmpty
  {
  }

  /** The identification reply: an optional dump, the remark on the
      reserved bytes, then the dispatch on the unit byte. */
  function Identification(flags: Flags, d: seq<Byte>): (o: StepOut)
    requires |d| == IdentReplyLength
    ensures o.next == (if d[1] == 0 then Aborted(NoUnit) else FetchCmd)
  {
    var seen := (if flags.dump then [HexDump(d)] else [])
      + (if ReservedInUse(d) then [Notice(ReservedIdentBytes)] else []);
    if d[1] == 0 then StepOut(Aborted(NoUnit), seen)
    else StepOut(FetchCmd, seen + UnitNotes(d))
  }

  /** The three parts of what the identification step writes. */
  lemma IdentificationParts(flags: Flags, d: seq<Byte>)
    requires |d| == IdentReplyLength
    ensures Identification(flags, d).outputs
      == (if flags.dump then [HexDump(d)] else [])
         + (if ReservedInUse(d) then [Notice(ReservedIdentBytes)] else [])
         + (if d[1] == 0 then [] else UnitNotes(d))
  {
  }

  lemma InThree<T>(x: T, a: seq<T>, b: seq<T>, c: seq<T>)
    ensures x in a + b + c <==> x in a || x in b || x in c
  {
  }

  lemma IdentificationDump(flags: Flags, d: seq<Byte>)
    requires |d| == IdentReplyLength
    ensures HexDump(d) in Identification(flags, d).outputs <==> flags.dump
  {
    var notes := if d[1] == 0 then [] else UnitNotes(d);
    IdentificationParts(flags, d);
    assert HexDump(d) !in notes;
    InThree(HexDump(d), if flags.dump then [HexDump(d)] else [],
            if ReservedInUse(d) then [Notice(ReservedIdentBytes)] else [], notes);
  }

  lemma IdentificationRemark(flags: Flags, d: seq<Byte>)
    requires |d| == IdentReplyLength
    ensures Notice(ReservedIdentBytes) in Identification(flags, d).outputs <==> ReservedInUse(d)
  {
    var notes := if d[1] == 0 then [] else UnitNotes(d);
    IdentificationParts(flags, d);
    assert Notice(ReservedIdentBytes) !in notes;
    InThree(Notice(ReservedIdentBytes), if flags.dump then [HexDump(d)] else [],
            if ReservedInUse(d) then [Notice(ReservedIdentBytes)] else [], notes);
  }

  /** The notes about the unit, alone among the step's outputs. */
  lemma IdentificationNotes(flags: Flags, d: seq<Byte>, x: Output)
    requires |d| == IdentReplyLength && x != HexDump(d) && x != Notice(ReservedIdentBytes)
    ensures x in Identification(flags, d).outputs <==> d[1] != 0 && x in UnitNotes(d)
  {
    IdentificationParts(flags, d);
    InThree(x, if flags.dump then [HexDump(d)] else [],
            if ReservedInUse(d) then [Notice(ReservedIdentBytes)] else [],
            if d[1] == 0 then [] else UnitNotes(d));
  }

  /** What the identification step writes: the dump when asked for, the
      remark exactly when a reserved byte is set, the kind of a supported
      unit, a warning for any other nonzero unit byte, and the serial number
      unless the unit byte is zero. */
  lemma IdentificationOutputs(flags: Flags, d: seq<Byte>)
    requires |d| == IdentReplyLength
    ensures var os := Identification(flags, d).outputs;
      && (HexDump(d) in os <==> flags.dump)
      && (Notice(ReservedIdentBytes) in os <==> ReservedInUse(d))
      && (Notice(Identified(d[0], d[6])) in os <==> d[1] == SupportedUnit)
      && (Notice(UnknownUnit(d[1])) in os <==> d[1] != 0 && d[1] != SupportedUnit)
      && (Notice(SerialNumber(d[2..6])) in os <==> d[1] != 0)
      && Notice(CradleEmpty) !in os && Sleep(ShortTimeout) !in os && !Reports(os)
  {
    IdentificationDump(flags, d);
    IdentificationRemark(flags, d);
    if d[1] != 0 {
      UnitNotesSpec(d);
    }
    IdentificationNotes(flags, d, Notice(Identified(d[0], d[6])));
    IdentificationNotes(flags, d, Notice(UnknownUnit(d[1])));
    IdentificationNotes(flags, d, Notice(SerialNumber(d[2..6])));
    IdentificationNotes(flags, d, Notice(CradleEmpty));
    IdentificationNotes(flags, d, Sleep(ShortTimeout));
    var os := Identification(flags, d).outputs;
    IdentificationParts(flags, d);
    if Reports(os) {
      var o :| o in os && o.Decoded?;
      IdentificationNotes(flags, d, o);
    }
  }

  /** The data reply: an optional dump, the decoded output, and the removal
      notice when no clearing comes first. */
  function Delivery(flags: Flags, d: seq<Byte>): (o: StepOut)
    requires |d| == ReplyLength
    ensures o.next == (if flags.clear then ClearCmd else PatPoll)
  {
    StepOut(if flags.clear then ClearCmd else PatPoll,
            (if flags.dump then [HexDump(d)] else [])
            + [Decoded(d, UnitsOf(flags))]
            + (if !flags.clear && flags.remove then [Notice(WaitingRemoval)] else []))
  }

  /** What the data step writes: the dump when asked for, the decoder's
      output in the chosen units, and the removal notice only when no
      clearing comes first. */
  lemma DeliveryOutputs(flags: Flags, d: seq<Byte>)
    requires |d| == ReplyLength
    ensures var os := Delivery(flags, d).outputs;
      && (HexDump(d) in os <==> flags.dump)
      && Decoded(d, UnitsOf(flags)) in os
      && (Notice(WaitingRemoval) in os <==> !flags.clear && flags.remove)
      && Notice(CradleEmpty) !in os && Sleep(ShortTimeout) !in os
  {
  }

  /** The answer to the clear command: zero, or the session ends. */
  function Clearing(flags: Flags, b: Byte): (o: StepOut)
    ensures o.next == (if b == 0 then PatPoll else Aborted(ClearRefused(b)))
  {
    if b != 0 then StepOut(Aborted(ClearRefused(b)), [])
    else StepOut(PatPoll, [Notice(CountersCleared)] + (if flags.remove then [Notice(WaitingRemoval)] else []))
  }

  lemma ClearingOutputs(flags: Flags, b: Byte)
    ensures var os := Clearing(flags, b).outputs;
      && (Notice(CountersCleared) in os <==> b == 0)
      && (Notice(WaitingRemoval) in os <==> b == 0 && flags.remove)
      && Notice(CradleEmpty) !in os && Sleep(ShortTimeout) !in os && !Reports(os)
  {
  }

  /** The answer to the final poll: without the removal wait the session is
      complete whatever it says; with it, only a zero (the cradle is empty)
      completes it, and anything else means a pause and another poll. */
  function Patting(flags: Flags, b: Byte): (o: StepOut)
    ensures o.next == (if !flags.remove || b == 0 then Completed else PatPoll)
  {
    if !flags.remove then StepOut(Completed, [])
    else if b == 0 then StepOut(Completed, [Notice(UnitRemoved)])
    else StepOut(PatPoll, [Sleep(ShortTimeout)])
  }

  lemma PattingOutputs(flags: Flags, b: Byte)
    ensures var os := Patting(flags, b).outputs;
      && (Notice(UnitRemoved) in os <==> flags.remove && b == 0)
      && (Sleep(ShortTimeout) in os <==> flags.remove && b != 0)
      && Notice(CradleEmpty) !in os && !Reports(os)
  {
  }

  /** A reply of the expected length, acted on. */
  function Accept(flags: Flags, ph: Phase, d: seq<Byte>): (o: StepOut)
    requires IsRead(ph) && !Probing(ph) && |d| == Expected(ph)
    ensures o.next != ChannelReset && !Probing(o.next)
    ensures Rank(o.next) > Rank(ph)
            || (ph.AwaitReply? && o.next == AwaitPoll(false))
            || (ph == PatReply && o.next == PatPoll)
    ensures o.next == Completed ==> ph == PatReply && (flags.remove ==> d[0] == 0)
  {
    match ph
    case AwaitReply(notYet) => Arrival(notYet, d[0])
    case IdentifyReply => Identification(flags, d)
    case FetchReply => Delivery(flags, d)
    case ClearReply => Clearing(flags, d[0])
    case PatReply => Patting(flags, d[0])
    case _ => StepOut(ph, [])
  }

  /** One call and what follows from its result.  Outside the probe every
      failed transfer ends the session, and so does every reply whose length
      is not the one expected. */
  function Step(flags: Flags, ph: Phase, res: Result): (o: StepOut)
    requires !Terminal(ph)
    ensures o.next == ChannelReset <==> Probing(ph) && res == Timeout
    ensures !Probing(ph) && !res.Ok? ==> o.next == Aborted(TransportError(Action(ph)))
    ensures IsRead(ph) && res.Ok? && |res.data| != Expected(ph)
            ==> o.next == Aborted(WrongLength(Expected(ph), |res.data|))
    ensures ph == ChannelReset && res.Ok? ==> o.next == AwaitPoll(true)
    ensures Rank(o.next) > Rank(ph)
            || (ph.AwaitReply? && o.next == AwaitPoll(false))
            || (ph == PatReply && o.next == PatPoll)
    ensures o.next == Completed
            ==> ph == PatReply && res.Ok? && |res.data| == 1 && (flags.remove ==> res.data[0] == 0)
  {
    if Probing(ph) then
      var next := ProbeStep(ph, res);
      StepOut(next, if next == ChannelReset then [Notice(ResettingChannel)] else [])
    else if !res.Ok? then StepOut(Aborted(TransportError(Action(ph))), [])
    else if !IsRead(ph) then StepOut(Following(ph), [])
    else if |res.data| != Expected(ph) then StepOut(Aborted(WrongLength(Expected(ph), |res.data|)), [])
    else Accept(flags, ph, res.data)
  }

  /** What one step writes, as far as it is counted: the decoder runs only on
      a data reply of the right length, the empty cradle is reported only on
      the first negative answer while waiting, and a pause follows only a
      negative answer in one of the two polling loops. */
  lemma StepOutputs(flags: Flags, ph: Phase, res: Result)
    requires !Terminal(ph)
    ensures var os := Step(flags, ph, res).outputs;
      && (Reports(os) <==> ph == FetchReply && res.Ok? && |res.data| == ReplyLength)
      && (Notice(CradleEmpty) in os
          <==> ph == AwaitReply(true) && res.Ok? && |res.data| == 1 && res.data[0] != 1)
      && (Sleep(ShortTimeout) in os
          <==> res.Ok? && |res.data| == 1
               && ((ph.AwaitReply? && res.data[0] != 1) || (ph == PatReply && flags.remove && res.data[0] != 0)))
  {
    if Probing(ph) {
      assert !Reports(Step(flags, ph, res).outputs);
    } else if res.Ok? && IsRead(ph) && |res.data| == Expected(ph) {
      var d := res.data;
      match ph
      case AwaitReply(n) => ArrivalOutputs(n, d[0]);
      case IdentifyReply => IdentificationOutputs(flags, d);
      case FetchReply => DeliveryOutputs(flags, d);
      case ClearReply => ClearingOutputs(flags, d[0]);
      case PatReply => PattingOutputs(flags, d[0]);
    } else {
      assert Step(flags, ph, res).outputs == [];
    }
  }

  // ----- runs

  /** One consumed transport result: the call that got it, the result, and
      what the session wrote or did because of it. */
  datatype Entry = Entry(call: Call, result: Result, outputs: seq<Output>)

  datatype Trace = Trace(final: Phase, entries: seq<Entry>)

  /** The session from phase `ph` on, driven by the transport results in
      `script` until a final phase is reached or the script runs out. */
  function RunFrom(flags: Flags, ph: Phase, script: seq<Result>): (t: Trace)
    ensures |t.entries| <= |script|
    ensures forall i :: 0 <= i < |t.entries| ==> t.entries[i].result == script[i]
    ensures Terminal(t.final) || |t.entries| == |script|
    ensures Terminal(ph) ==> t.final == ph && t.entries == []
    decreases |script|
  {
    if Terminal(ph) || |script| == 0 then Trace(ph, [])
    else
      var o := Step(flags, ph, script[0]);
      var rest := RunFrom(flags, o.next, script[1..]);
      Trace(rest.final, [Entry(Action(ph), script[0], o.outputs)] + rest.entries)
  }

  /** A whole session, from the probe on. */
  function Session(flags: Flags, script: seq<Result>): Trace {
    RunFrom(flags, Probe, script)
  }

  /** One step of a run: the first entry, and the run from the next phase. */
  lemma RunStep(flags: Flags, ph: Phase, script: seq<Result>)
    requires !Terminal(ph) && |script| > 0
    ensures var o := Step(flags, ph, script[0]);
      var rest := RunFrom(flags, o.next, script[1..]);
      && RunFrom(flags, ph, script).final == rest.final
      && RunFrom(flags, ph, script).entries == [Entry(Action(ph), script[0], o.outputs)] + rest.entries
  {
  }

  // ----- counting over a trace

  /** Things counted over a session: resets, pauses, empty-cradle notices
      and decoder runs.  A step issues at most one of each. */
  datatype Kind = ResetCall | Slept | EmptyCradle | Reported

  function Hits(e: Entry, k: Kind): nat {
    var hit := match k
      case ResetCall => e.call == Reset
      case Slept => Sleep(ShortTimeout) in e.outputs
      case EmptyCradle => Notice(CradleEmpty) in e.outputs
      case Reported => Reports(e.outputs);
    if hit then 1 else 0
  }

  function Tally(es: seq<Entry>, k: Kind): nat
    decreases |es|
  {
    if |es| == 0 then 0 else Hits(es[0], k) + Tally(es[1..], k)
  }

  /** Counting over a run: the first entry, then the run from the next phase. */
  lemma TallyStep(flags: Flags, ph: Phase, script: seq<Result>, k: Kind)
    requires !Terminal(ph) && |script| > 0
    ensures var o := Step(flags, ph, script[0]);
      Tally(RunFrom(flags, ph, script).entries, k)
      == Hits(Entry(Action(ph), script[0], o.outputs), k) + Tally(RunFrom(flags, o.next, script[1..]).entries, k)
  {
    RunStep(flags, ph, script);
    var es := RunFrom(flags, ph, script).entries;
    assert es[1..] == RunFrom(flags, Step(flags, ph, script[0]).next, script[1..]).entries;
  }

  // ----- steps in known phases

  /** A write or reset that succeeds moves on to the phase that follows it
      and writes nothing. */
  lemma StepWritten(flags: Flags, ph: Phase, res: Result)
    requires !Terminal(ph) && !IsRead(ph) && !Probing(ph) && res.Ok?
    ensures Step(flags, ph, res) == StepOut(Following(ph), [])
  {
  }

  /** A reply of the expected length is acted on by its phase. */
  lemma StepAccepted(flags: Flags, ph: Phase, d: seq<Byte>)
    requires IsRead(ph) && !Probing(ph) && |d| == Expected(ph)
    ensures Step(flags, ph, Ok(d)) == Accept(flags, ph, d)
  {
  }

  // ----- the channel reset

  /** Past the probe no step issues a reset. */
  lemma {:induction false} NoLateReset(flags: Flags, ph: Phase, script: seq<Result>)
    requires Rank(ph) > Rank(ChannelReset)
    ensures Tally(RunFrom(flags, ph, script).entries, ResetCall) == 0
    decreases |script|
  {
    if !Terminal(ph) && |script| > 0 {
      var next := Step(flags, ph, script[0]).next;
      assert Rank(next) > Rank(ChannelReset);
      assert Action(ph) != Reset;
      NoLateReset(flags, next, script[1..]);
      TallyStep(flags, ph, script, ResetCall);
    }
  }

  /** The reset phase issues its one reset if a result is left for it. */
  lemma FromReset(flags: Flags, script: seq<Result>)
    ensures Tally(RunFrom(flags, ChannelReset, script).entries, ResetCall) == (if |script| > 0 then 1 else 0)
  {
    if |script| > 0 {
      var next := Step(flags, ChannelReset, script[0]).next;
      assert Rank(next) > Rank(ChannelReset);
      NoLateReset(flags, next, script[1..]);
      TallyStep(flags, ChannelReset, script, ResetCall);
    }
  }

  lemma FromProbeRead(flags: Flags, script: seq<Result>)
    ensures Tally(RunFrom(flags, ProbeRead, script).entries, ResetCall)
      == (if |script| >= 2 && script[0] == Timeout then 1 else 0)
  {
    if |script| > 0 {
      var next := Step(flags, ProbeRead, script[0]).next;
      assert Action(ProbeRead) != Reset;
      if script[0] == Timeout {
        assert next == ChannelReset;
        FromReset(flags, script[1..]);
      } else {
        assert next != ChannelReset && Rank(next) > Rank(ProbeRead);
        NoLateReset(flags, next, script[1..]);
      }
      TallyStep(flags, ProbeRead, script, ResetCall);
    }
  }

  /** The probe timed out, on the poll or on its answer, and a result is
      left for the reset. */
  predicate ProbeTimedOut(script: seq<Result>) {
    || (|script| >= 2 && script[0] == Timeout)
    || (|script| >= 3 && script[0].Ok? && script[1] == Timeout)
  }

  /** A session resets the channel at most once, and exactly when the probe
      timed out. */
  lemma ResetOnce(flags: Flags, script: seq<Result>)
    ensures Tally(Session(flags, script).entries, ResetCall) == (if ProbeTimedOut(script) then 1 else 0)
  {
    if |script| > 0 {
      var next := Step(flags, Probe, script[0]).next;
      assert Action(Probe) != Reset;
      if script[0] == Timeout {
        assert next == ChannelReset;
        FromReset(flags, script[1..]);
      } else if script[0].Ok? {
        assert next == ProbeRead;
        FromProbeRead(flags, script[1..]);
      } else {
        assert next.Aborted?;
        NoLateReset(flags, next, script[1..]);
      }
      TallyStep(flags, Probe, script, ResetCall);
    }
  }

  // ----- failures end the session

  /** Every entry from index `lo` on got a successful result. */
  predicate OkFrom(es: seq<Entry>, lo: nat) {
    forall i :: lo <= i < |es| ==> es[i].result.Ok?
  }

  lemma OkPrepend(e: Entry, es: seq<Entry>, lo: nat)
    requires OkFrom(es, lo)
    ensures OkFrom([e] + es, lo + 1)
    ensures lo == 0 && e.result.Ok? ==> OkFrom([e] + es, 0)
  {
    var all := [e] + es;
    forall i | 1 <= i < |all| ensures all[i] == es[i - 1] {
    }
  }

  /** Past the probe, a session completes only if every transfer succeeded. */
  lemma {:induction false} CleanAfterProbe(flags: Flags, ph: Phase, script: seq<Result>)
    requires !Probing(ph) && RunFrom(flags, ph, script).final == Completed
    ensures OkFrom(RunFrom(flags, ph, script).entries, 0)
    decreases |script|
  {
    if !Terminal(ph) {
      assert |script| > 0;
      var o := Step(flags, ph, script[0]);
      RunStep(flags, ph, script);
      assert !Terminal(o.next) || o.next == Completed;
      assert script[0].Ok?;
      assert !Probing(o.next);
      CleanAfterProbe(flags, o.next, script[1..]);
      OkPrepend(Entry(Action(ph), script[0], o.outputs), RunFrom(flags, o.next, script[1..]).entries, 0);
    }
  }

  /** From the probe's answer on, a completed run saw at most a timeout on
      that answer and no failure after it. */
  lemma CleanAfterProbeRead(flags: Flags, script: seq<Result>)
    requires RunFrom(flags, ProbeRead, script).final == Completed
    ensures var es := RunFrom(flags, ProbeRead, script).entries;
      |es| > 0 && (es[0].result.Ok? || es[0].result == Timeout) && OkFrom(es, 1)
  {
    assert |script| > 0;
    var o := Step(flags, ProbeRead, script[0]);
    RunStep(flags, ProbeRead, script);
    assert o.next == ChannelReset || o.next == AwaitPoll(true);
    CleanAfterProbe(flags, o.next, script[1..]);
    OkPrepend(Entry(Action(ProbeRead), script[0], o.outputs), RunFrom(flags, o.next, script[1..]).entries, 1);
  }

  /** A completed session saw no failure except the probe's timeouts, which
      are the first one or two results. */
  lemma CompletedClean(flags: Flags, script: seq<Result>)
    requires Session(flags, script).final == Completed
    ensures var es := Session(flags, script).entries;
      forall i :: 0 <= i < |es| ==> es[i].result.Ok? || (i < 2 && es[i].result == Timeout)
  {
    var es := Session(flags, script).entries;
    assert |script| > 0;
    var o := Step(flags, Probe, script[0]);
    RunStep(flags, Probe, script);
    var rest := RunFrom(flags, o.next, script[1..]).entries;
    assert es[0].result == script[0];
    if o.next == ProbeRead {
      CleanAfterProbeRead(flags, script[1..]);
      OkPrepend(es[0], rest, 1);
      assert es[1] == rest[0];
    } else {
      assert o.next == ChannelReset;
      CleanAfterProbe(flags, o.next, script[1..]);
      OkPrepend(es[0], rest, 0);
    }
  }

  /** The first step of a run that completes: either it is the answer that
      completes the session, or the rest of the run completes. */
  lemma CompletingFirst(flags: Flags, ph: Phase, script: seq<Result>)
    requires !Terminal(ph) && RunFrom(flags, ph, script).final == Completed
    ensures |script| > 0
    ensures var next := Step(flags, ph, script[0]).next;
      var es := RunFrom(flags, ph, script).entries;
      var rest := RunFrom(flags, next, script[1..]).entries;
      && |es| == 1 + |rest| && es[1..] == rest
      && (next == Completed ==> |es| == 1 && es[0].call == Read(ShortTimeout)
                                && script[0].Ok? && |script[0].data| == 1
                                && (flags.remove ==> script[0].data[0] == 0))
      && (next != Completed ==> !Terminal(next) && RunFrom(flags, next, script[1..]).final == Completed)
  {
    assert |script| > 0;
    var o := Step(flags, ph, script[0]);
    RunStep(flags, ph, script);
    if o.next == Completed {
      assert ph == PatReply;
    }
  }

  /** A run that completes ends with the answer to a quick poll: one byte,
      and a zero one when the removal wait is on. */
  lemma {:induction false} CompletedLast(flags: Flags, ph: Phase, script: seq<Result>)
    requires !Terminal(ph) && RunFrom(flags, ph, script).final == Completed
    ensures var es := RunFrom(flags, ph, script).entries;
      && |es| > 0
      && es[|es| - 1].call == Read(ShortTimeout)
      && es[|es| - 1].result.Ok? && |es[|es| - 1].result.data| == 1
      && (flags.remove ==> es[|es| - 1].result.data[0] == 0)
    decreases |script|
  {
    CompletingFirst(flags, ph, script);
    var next := Step(flags, ph, script[0]).next;
    var es := RunFrom(flags, ph, script).entries;
    assert es[0].result == script[0];
    if next != Completed {
      CompletedLast(flags, next, script[1..]);
      var rest := RunFrom(flags, next, script[1..]).entries;
      assert es[|es| - 1] == rest[|rest| - 1];
    }
  }

  // ----- the decoder runs once

  /** Before the data reply no step jumps past it without ending the session. */
  lemma StepBeforeFetch(flags: Flags, ph: Phase, res: Result)
    requires !Terminal(ph) && Rank(ph) < Rank(FetchReply)
    ensures var next := Step(flags, ph, res).next;
      Terminal(next) || Rank(next) <= Rank(FetchReply)
  {
    if !Probing(ph) && res.Ok? && IsRead(ph) && |res.data| == Expected(ph) {
      match ph
      case AwaitReply(_) =>
      case IdentifyReply =>
    }
  }

  /** Past the data reply the decoder does not run. */
  lemma {:induction false} NoLateReport(flags: Flags, ph: Phase, script: seq<Result>)
    requires Rank(ph) > Rank(FetchReply)
    ensures Tally(RunFrom(flags, ph, script).entries, Reported) == 0
    decreases |script|
  {
    if !Terminal(ph) && |script| > 0 {
      var o := Step(flags, ph, script[0]);
      StepNoReport(flags, ph, script[0]);
      assert Rank(o.next) > Rank(FetchReply);
      NoLateReport(flags, o.next, script[1..]);
      TallyStep(flags, ph, script, Reported);
    }
  }

  /** No step but the data reply's runs the decoder. */
  lemma StepNoReport(flags: Flags, ph: Phase, res: Result)
    requires !Terminal(ph) && ph != FetchReply
    ensures !Reports(Step(flags, ph, res).outputs)
  {
    StepOutputs(flags, ph, res);
  }

  /** At the data reply the decoder runs at most once. */
  lemma AtMostOnceAtFetch(flags: Flags, script: seq<Result>)
    ensures Tally(RunFrom(flags, FetchReply, script).entries, Reported) <= 1
  {
    if |script| > 0 {
      var o := Step(flags, FetchReply, script[0]);
      if !Terminal(o.next) {
        assert Rank(o.next) > Rank(FetchReply);
        NoLateReport(flags, o.next, script[1..]);
      }
      TallyStep(flags, FetchReply, script, Reported);
    }
  }

  /** One step from before the data reply: it writes no decoder output and
      either ends the run or stays at or before the data reply. */
  lemma StepBeforeReport(flags: Flags, ph: Phase, script: seq<Result>)
    requires !Terminal(ph) && Rank(ph) < Rank(FetchReply) && |script| > 0
    ensures var next := Step(flags, ph, script[0]).next;
      var here := Tally(RunFrom(flags, ph, script).entries, Reported);
      && (Terminal(next) ==> here == 0)
      && (!Terminal(next) ==> Rank(next) <= Rank(FetchReply)
                              && here == Tally(RunFrom(flags, next, script[1..]).entries, Reported))
  {
    StepNoReport(flags, ph, script[0]);
    StepBeforeFetch(flags, ph, script[0]);
    TallyStep(flags, ph, script, Reported);
  }

  /** Up to the data reply the decoder runs at most once. */
  lemma {:induction false} AtMostOnce(flags: Flags, ph: Phase, script: seq<Result>)
    requires Rank(ph) <= Rank(FetchReply)
    ensures Tally(RunFrom(flags, ph, script).entries, Reported) <= 1
    decreases |script|
  {
    if ph == FetchReply {
      AtMostOnceAtFetch(flags, script);
    } else if !Terminal(ph) && |script| > 0 {
      StepBeforeReport(flags, ph, script);
      var next := Step(flags, ph, script[0]).next;
      if !Terminal(next) {
        AtMostOnce(flags, next, script[1..]);
      }
    }
  }

  /** A completed run through the data reply decoded it. */
  lemma CompletedAtFetch(flags: Flags, script: seq<Result>)
    requires RunFrom(flags, FetchReply, script).final == Completed
    ensures Tally(RunFrom(flags, FetchReply, script).entries, Reported) >= 1
  {
    var res := script[0];
    var o := Step(flags, FetchReply, res);
    RunStep(flags, FetchReply, script);
    assert res.Ok? && |res.data| == ReplyLength;
    StepAccepted(flags, FetchReply, res.data);
    assert Decoded(res.data, UnitsOf(flags)) in o.outputs;
    TallyStep(flags, FetchReply, script, Reported);
  }

  /** One step of a run that completes from before the data reply: it does
      not end the session and does not pass the data reply. */
  lemma CompletingStep(flags: Flags, ph: Phase, script: seq<Result>)
    requires Rank(ph) < Rank(FetchReply) && RunFrom(flags, ph, script).final == Completed
    ensures |script| > 0
    ensures var next := Step(flags, ph, script[0]).next;
      && Rank(next) <= Rank(FetchReply)
      && RunFrom(flags, next, script[1..]).final == Completed
      && Tally(RunFrom(flags, ph, script).entries, Reported) >= Tally(RunFrom(flags, next, script[1..]).entries, Reported)
  {
    assert !Terminal(ph) && |script| > 0;
    var o := Step(flags, ph, script[0]);
    RunStep(flags, ph, script);
    assert o.next != Completed;
    StepBeforeFetch(flags, ph, script[0]);
    TallyStep(flags, ph, script, Reported);
  }

  /** A run that completes from before the data reply decoded it. */
  lemma {:induction false} CompletedReports(flags: Flags, ph: Phase, script: seq<Result>)
    requires Rank(ph) <= Rank(FetchReply) && RunFrom(flags, ph, script).final == Completed
    ensures Tally(RunFrom(flags, ph, script).entries, Reported) >= 1
    decreases |script|
  {
    if ph == FetchReply {
      CompletedAtFetch(flags, script);
    } else {
      CompletingStep(flags, ph, script);
      CompletedReports(flags, Step(flags, ph, script[0]).next, script[1..]);
    }
  }

  /** A session decodes at most one data reply, and a completed one exactly
      one. */
  lemma ReportOnce(flags: Flags, script: seq<Result>)
    ensures Tally(Session(flags, script).entries, Reported) <= 1
    ensures Session(flags, script).final == Completed ==> Tally(Session(flags, script).entries, Reported) == 1
  {
    AtMostOnce(flags, Probe, script);
    if Session(flags, script).final == Completed {
      CompletedReports(flags, Probe, script);
    }
  }

  // ----- the empty cradle is reported once

  /** The phases from which the empty-cradle notice can still come. */
  predicate MayAnnounce(ph: Phase) {
    Rank(ph) <= Rank(ChannelReset) || ph == AwaitPoll(true) || ph == AwaitReply(true)
  }

  /** Once the notice is ruled out, no step makes it possible again. */
  lemma StepAnnounce(flags: Flags, ph: Phase, res: Result)
    requires !Terminal(ph) && !MayAnnounce(ph)
    ensures !MayAnnounce(Step(flags, ph, res).next)
  {
    if !Probing(ph) && res.Ok? && IsRead(ph) && |res.data| == Expected(ph) {
      match ph
      case AwaitReply(_) =>
      case IdentifyReply =>
      case FetchReply =>
      case ClearReply =>
      case PatReply =>
    }
  }

  lemma {:induction false} QuietFrom(flags: Flags, ph: Phase, script: seq<Result>)
    requires !MayAnnounce(ph)
    ensures Tally(RunFrom(flags, ph, script).entries, EmptyCradle) == 0
    decreases |script|
  {
    if !Terminal(ph) && |script| > 0 {
      var o := Step(flags, ph, script[0]);
      StepOutputs(flags, ph, script[0]);
      assert Notice(CradleEmpty) !in o.outputs;
      StepAnnounce(flags, ph, script[0]);
      QuietFrom(flags, o.next, script[1..]);
      TallyStep(flags, ph, script, EmptyCradle);
    }
  }

  lemma {:induction false} AnnounceOnce(flags: Flags, ph: Phase, script: seq<Result>)
    ensures Tally(RunFrom(flags, ph, script).entries, EmptyCradle) <= 1
    decreases |script|
  {
    if !Terminal(ph) && |script| > 0 {
      var o := Step(flags, ph, script[0]);
      StepOutputs(flags, ph, script[0]);
      if Notice(CradleEmpty) in o.outputs {
        assert o.next == AwaitPoll(false);
        QuietFrom(flags, o.next, script[1..]);
      } else {
        AnnounceOnce(flags, o.next, script[1..]);
      }
      TallyStep(flags, ph, script, EmptyCradle);
    }
  }

  /** However long the wait, a session says at most once that the cradle is
      empty. */
  lemma EmptyOnce(flags: Flags, script: seq<Result>)
    ensures Tally(Session(flags, script).entries, EmptyCradle) <= 1
  {
    AnnounceOnce(flags, Probe, script);
  }

  // ----- the polling loops

  /** The results of a run of polls: each write succeeds, and each answer is
      the one byte given. */
  function PollScript(replies: seq<Byte>): (script: seq<Result>)
    ensures |script| == 2 * |replies|
    ensures forall i :: 0 <= i < |replies| ==> script[2 * i].Ok?
    ensures forall i :: 0 <= i < |replies| ==> script[2 * i + 1] == Ok([replies[i]])
    decreases |replies|
  {
    if |replies| == 0 then []
    else
      var rest := PollScript(replies[1..]);
      var script := [Ok([]), Ok([replies[0]])] + rest;
      assert forall i :: 1 <= i < |replies| ==> script[2 * i] == rest[2 * (i - 1)];
      assert forall i :: 1 <= i < |replies| ==> script[2 * i + 1] == rest[2 * (i - 1) + 1];
      script
  }

  /** A script that starts with a successful poll answered by `b`. */
  predicate PollFirst(script: seq<Result>, b: Byte) {
    |script| >= 2 && script[0].Ok? && script[1] == Ok([b])
  }

  lemma PollScriptFirst(replies: seq<Byte>, rest: seq<Result>)
    requires |replies| > 0
    ensures PollFirst(PollScript(replies) + rest, replies[0])
    ensures (PollScript(replies) + rest)[2..] == PollScript(replies[1..]) + rest
  {
    assert PollScript(replies) + rest == [Ok([]), Ok([replies[0]])] + (PollScript(replies[1..]) + rest);
  }

  /** What a wait adds to a count: one pause per empty answer, and one
      notice if the cradle was empty and not reported yet. */
  function WaitHits(notYet: bool, empties: nat, k: Kind): nat {
    match k
    case Slept => empties
    case EmptyCradle => if notYet && empties > 0 then 1 else 0
    case _ => 0
  }

  /** One round of the wait with the cradle empty: a poll, a negative
      answer, and the wait goes on with the notice already given. */
  lemma WaitRound(flags: Flags, notYet: bool, script: seq<Result>, b: Byte)
    requires PollFirst(script, b) && b != 1
    ensures var t := RunFrom(flags, AwaitPoll(notYet), script);
      var u := RunFrom(flags, AwaitPoll(false), script[2..]);
      && t.final == u.final
      && t.entries == [Entry(Write(CommandBytes(Poll), ShortTimeout), script[0], []),
                       Entry(Read(ShortTimeout), Ok([b]), Arrival(notYet, b).outputs)] + u.entries
  {
    assert script[1..][0] == Ok([b]) && script[1..][1..] == script[2..];
    StepWritten(flags, AwaitPoll(notYet), script[0]);
    StepAccepted(flags, AwaitReply(notYet), [b]);
    RunStep(flags, AwaitPoll(notYet), script);
    RunStep(flags, AwaitReply(notYet), script[1..]);
  }

  /** The count over two leading entries. */
  lemma TallyTwo(e0: Entry, e1: Entry, es: seq<Entry>, k: Kind)
    ensures Tally([e0, e1] + es, k) == Hits(e0, k) + Hits(e1, k) + Tally(es, k)
  {
    var all := [e0, e1] + es;
    assert all[1..] == [e1] + es && all[1..][1..] == es;
  }

  /** One round of the wait, counted. */
  lemma WaitRoundTally(flags: Flags, notYet: bool, script: seq<Result>, b: Byte, k: Kind)
    requires PollFirst(script, b) && b != 1
    ensures Tally(RunFrom(flags, AwaitPoll(notYet), script).entries, k)
      == WaitHits(notYet, 1, k) + Tally(RunFrom(flags, AwaitPoll(false), script[2..]).entries, k)
  {
    WaitRound(flags, notYet, script, b);
    var o := Arrival(notYet, b);
    TallyTwo(Entry(Write(CommandBytes(Poll), ShortTimeout), script[0], []), Entry(Read(ShortTimeout), Ok([b]), o.outputs),
             RunFrom(flags, AwaitPoll(false), script[2..]).entries, k);
  }

  /** While the unit is absent the session polls, pauses once per answer
      and reports the empty cradle only the first time; the run then goes
      on as a wait from the following poll. */
  lemma {:induction false} WaitLoop(flags: Flags, notYet: bool, replies: seq<Byte>, rest: seq<Result>, k: Kind)
    requires forall i :: 0 <= i < |replies| ==> replies[i] != 1
    ensures var t := RunFrom(flags, AwaitPoll(notYet), PollScript(replies) + rest);
      var u := RunFrom(flags, AwaitPoll(notYet && |replies| == 0), rest);
      t.final == u.final && Tally(t.entries, k) == WaitHits(notYet, |replies|, k) + Tally(u.entries, k)
    decreases |replies|
  {
    if |replies| == 0 {
      assert PollScript(replies) + rest == rest;
    } else {
      PollScriptFirst(replies, rest);
      WaitRound(flags, notYet, PollScript(replies) + rest, replies[0]);
      WaitRoundTally(flags, notYet, PollScript(replies) + rest, replies[0], k);
      WaitLoop(flags, false, replies[1..], rest, k);
    }
  }

  /** The unit answers the poll: it is reported found and identification
      starts. */
  lemma UnitArrives(flags: Flags, notYet: bool, script: seq<Result>)
    requires PollFirst(script, 1)
    ensures var t := RunFrom(flags, AwaitPoll(notYet), script);
      var u := RunFrom(flags, IdentifyCmd, script[2..]);
      && t.final == u.final
      && t.entries == [Entry(Write(CommandBytes(Poll), ShortTimeout), script[0], []),
                       Entry(Read(ShortTimeout), Ok([1]), [Notice(UnitFound)])] + u.entries
  {
    assert script[1..][0] == Ok([1]) && script[1..][1..] == script[2..];
    StepWritten(flags, AwaitPoll(notYet), script[0]);
    StepAccepted(flags, AwaitReply(notYet), [1]);
    RunStep(flags, AwaitPoll(notYet), script);
    RunStep(flags, AwaitReply(notYet), script[1..]);
  }

  /** One round of the removal wait: a poll, a nonzero answer, a pause. */
  lemma RemovalRound(flags: Flags, script: seq<Result>, b: Byte)
    requires flags.remove && PollFirst(script, b) && b != 0
    ensures var t := RunFrom(flags, PatPoll, script);
      var u := RunFrom(flags, PatPoll, script[2..]);
      t.final == u.final && Tally(t.entries, Slept) == 1 + Tally(u.entries, Slept)
  {
    assert script[1..][0] == Ok([b]) && script[1..][1..] == script[2..];
    StepWritten(flags, PatPoll, script[0]);
    StepAccepted(flags, PatReply, [b]);
    RunStep(flags, PatPoll, script);
    RunStep(flags, PatReply, script[1..]);
    TallyStep(flags, PatPoll, script, Slept);
    TallyStep(flags, PatReply, script[1..], Slept);
  }

  /** With the removal wait on, every nonzero answer to the final poll means
      a pause and another poll. */
  lemma {:induction false} RemovalLoop(flags: Flags, replies: seq<Byte>, rest: seq<Result>)
    requires flags.remove
    requires forall i :: 0 <= i < |replies| ==> replies[i] != 0
    ensures var t := RunFrom(flags, PatPoll, PollScript(replies) + rest);
      var u := RunFrom(flags, PatPoll, rest);
      t.final == u.final && Tally(t.entries, Slept) == |replies| + Tally(u.entries, Slept)
    decreases |replies|
  {
    if |replies| == 0 {
      assert PollScript(replies) + rest == rest;
    } else {
      PollScriptFirst(replies, rest);
      RemovalRound(flags, PollScript(replies) + rest, replies[0]);
      RemovalLoop(flags, replies[1..], rest);
    }
  }

  /** The final poll completes the session after one answer, any answer
      without the removal wait, and a zero one with it. */
  lemma FinalPoll(flags: Flags, script: seq<Result>, b: Byte)
    requires PollFirst(script, b) && (flags.remove ==> b == 0)
    ensures var t := RunFrom(flags, PatPoll, script);
      t.final == Completed && |t.entries| == 2
  {
    assert script[1..][0] == Ok([b]) && script[1..][1..] == script[2..];
    StepWritten(flags, PatPoll, script[0]);
    StepAccepted(flags, PatReply, [b]);
    RunStep(flags, PatPoll, script);
    RunStep(flags, PatReply, script[1..]);
  }

  // ----- the end of a session

  /** The session clears `run` exactly when it did everything, and touches
      no other option. */
  function Conclude(flags: Flags, t: Trace): (f: Flags)
    requires flags.run
    ensures !f.run <==> t.final == Completed
    ensures f.(run := true) == flags
  {
    if t.final == Completed then flags.(run := false) else flags
  }

  /** The exit status: 2 for an unrecognised argument, 1 for a session that
      did not complete, 0 otherwise. */
  function ExitCode(parsed: Flags, t: Trace): (code: nat)
    ensures code == 2 <==> !parsed.run
    ensures code == 0 <==> parsed.run && t.final == Completed
    ensures code <= 2
  {
    if !parsed.run then 2 else if Conclude(parsed, t).run then 1 else 0
  }
}
