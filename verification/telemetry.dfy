/** The telemetry decoder: the 27-byte data reply of the cradle, its
    big-endian fields, the optional km-to-mile scaling, and the two output
    forms (labelled lines, or one comma-separated raw line). */
module Telemetry {
  import opened Bytes
  import opened Decimal
  import opened Text
  import opened Config

  const ReplyLength: nat := 27

  /** The data reply, field by field. */
  datatype Reply = Reply(
    pending: Byte,           // byte 0: records waiting in the unit, minus one
    distance: nat,           // bytes 1-3: metres
    seconds: nat,            // bytes 4-6: riding time
    meanSpeed: nat,          // bytes 7-8: km/h times 100
    maxSpeed: nat,           // bytes 9-10: km/h times 100
    cadence: Byte,           // byte 11: rpm
    reservedMid: seq<Byte>,  // bytes 12-13: expected zero
    tsDistance: nat,         // bytes 14-16: trip-section metres
    tsSeconds: nat,          // bytes 17-19: trip-section time
    reservedTail: seq<Byte>) // bytes 20-26: expected zero

  /** Every field fits the width it occupies in the reply. */
  predicate WellFormed(r: Reply) {
    && r.distance < Bound24 && r.seconds < Bound24
    && r.meanSpeed < Bound16 && r.maxSpeed < Bound16
    && |r.reservedMid| == 2
    && r.tsDistance < Bound24 && r.tsSeconds < Bound24
    && |r.reservedTail| == 7
  }

  function Parse(buf: seq<Byte>): (r: Reply)
    requires |buf| == ReplyLength
    ensures WellFormed(r)
  {
    Reply(buf[0], Be24(buf[1], buf[2], buf[3]), Be24(buf[4], buf[5], buf[6]),
          Be16(buf[7], buf[8]), Be16(buf[9], buf[10]), buf[11], buf[12..14],
          Be24(buf[14], buf[15], buf[16]), Be24(buf[17], buf[18], buf[19]), buf[20..27])
  }

  /** The bytes a unit would send for a given reply. */
  function Encode(r: Reply): (buf: seq<Byte>)
    requires WellFormed(r)
    ensures |buf| == ReplyLength
  {
    ([r.pending] + Be24Bytes(r.distance) + Be24Bytes(r.seconds))
    + (Be16Bytes(r.meanSpeed) + Be16Bytes(r.maxSpeed) + [r.cadence])
    + (r.reservedMid + Be24Bytes(r.tsDistance) + Be24Bytes(r.tsSeconds) + r.reservedTail)
  }

  /** Parsing loses nothing: the reply re-encodes to the very bytes read. */
  lemma EncodeParse(buf: seq<Byte>)
    requires |buf| == ReplyLength
    ensures Encode(Parse(buf)) == buf
  {
    var r := Parse(buf);
    Be24Injective(buf[1], buf[2], buf[3]);
    Be24Injective(buf[4], buf[5], buf[6]);
    Be16Injective(buf[7], buf[8]);
    Be16Injective(buf[9], buf[10]);
    Be24Injective(buf[14], buf[15], buf[16]);
    Be24Injective(buf[17], buf[18], buf[19]);
    assert Be24Bytes(r.distance) == buf[1..4] && Be24Bytes(r.seconds) == buf[4..7];
    assert Be16Bytes(r.meanSpeed) == buf[7..9] && Be16Bytes(r.maxSpeed) == buf[9..11];
    assert Be24Bytes(r.tsDistance) == buf[14..17] && Be24Bytes(r.tsSeconds) == buf[17..20];
    assert buf[..7] == [buf[0]] + buf[1..4] + buf[4..7];
    assert buf[7..12] == buf[7..9] + buf[9..11] + [buf[11]];
    assert buf[12..] == buf[12..14] + buf[14..17] + buf[17..20] + buf[20..27];
    assert buf == buf[..7] + buf[7..12] + buf[12..];
  }

  /** Every well-formed reply is what parsing its encoding yields. */
  lemma ParseEncode(r: Reply)
    requires WellFormed(r)
    ensures Parse(Encode(r)) == r
  {
    var buf := Encode(r);
    var d, t := Be24Bytes(r.distance), Be24Bytes(r.seconds);
    var m, x := Be16Bytes(r.meanSpeed), Be16Bytes(r.maxSpeed);
    var td, tt := Be24Bytes(r.tsDistance), Be24Bytes(r.tsSeconds);
    var front := [r.pending] + d + t + (m + x + [r.cadence]);
    var back := r.reservedMid + td + tt + r.reservedTail;
    assert |front| == 12 && |back| == 15;
    assert buf == front + back;
    assert buf[1] == d[0] && buf[2] == d[1] && buf[3] == d[2];
    assert buf[4] == t[0] && buf[5] == t[1] && buf[6] == t[2];
    assert buf[7] == m[0] && buf[8] == m[1] && buf[9] == x[0] && buf[10] == x[1];
    assert buf[12..14] == r.reservedMid;
    assert buf[14] == td[0] && buf[15] == td[1] && buf[16] == td[2];
    assert buf[17] == tt[0] && buf[18] == tt[1] && buf[19] == tt[2];
    assert buf[20..27] == r.reservedTail;
  }

  // ----- units

  /** Kilometres and km/h as sent, or miles and mph. */
  datatype Units = Metric | Imperial

  function UnitsOf(f: Flags): Units {
    if f.miles then Imperial else Metric
  }

  function DistanceUnit(u: Units): string {
    match u
    case Metric => "km"
    case Imperial => "mi"
  }

  function SpeedUnit(u: Units): string {
    match u
    case Metric => "km/hr"
    case Imperial => "mph"
  }

  /** A distance or speed divided by the unit factor (1, or 1.609344 km per
      mile) and truncated. */
  function Scale(x: nat, u: Units): (y: nat)
    ensures u == Metric ==> y == x
    ensures u == Imperial ==> y * 1609344 <= x * 1000000 < (y + 1) * 1609344
    ensures y <= x
  {
    match u
    case Metric => x
    case Imperial => x * 1000000 / 1609344
  }

  /** The values the output is made from, after scaling. */
  datatype Readings = Readings(
    distance: nat, seconds: nat, meanSpeed: nat, maxSpeed: nat,
    cadence: nat, tsDistance: nat, tsSeconds: nat)

  /** The fields of a data reply in the chosen units: distances and speeds
      are scaled, times and cadence never are, and nothing outgrows the
      width it was read with (so the 16-bit speeds stay 16-bit). */
  function Readout(buf: seq<Byte>, u: Units): (rd: Readings)
    requires |buf| == ReplyLength
    ensures rd.distance == Scale(buf[1] as nat * 65536 + buf[2] as nat * 256 + buf[3], u)
    ensures rd.seconds == buf[4] as nat * 65536 + buf[5] as nat * 256 + buf[6]
    ensures rd.meanSpeed == Scale(buf[7] as nat * 256 + buf[8], u)
    ensures rd.maxSpeed == Scale(buf[9] as nat * 256 + buf[10], u)
    ensures rd.cadence == buf[11]
    ensures rd.tsDistance == Scale(buf[14] as nat * 65536 + buf[15] as nat * 256 + buf[16], u)
    ensures rd.tsSeconds == buf[17] as nat * 65536 + buf[18] as nat * 256 + buf[19]
    ensures rd.distance < Bound24 && rd.seconds < Bound24 && rd.tsDistance < Bound24
    ensures rd.tsSeconds < Bound24 && rd.meanSpeed < Bound16 && rd.maxSpeed < Bound16
  {
    var r := Parse(buf);
    Readings(Scale(r.distance, u), r.seconds, Scale(r.meanSpeed, u), Scale(r.maxSpeed, u),
             r.cadence, Scale(r.tsDistance, u), r.tsSeconds)
  }

  // ----- numeric forms

  /** Hours, minutes and seconds of a duration. */
  datatype Clock = Clock(hours: nat, minutes: nat, secs: nat)

  function TotalSeconds(c: Clock): nat {
    c.hours * 3600 + c.minutes * 60 + c.secs
  }

  predicate Normal(c: Clock) {
    c.minutes < 60 && c.secs < 60
  }

  /** `H:MM:SS` decomposition: whole hours first, then the minutes and
      seconds of what is left. */
  function ToClock(s: nat): (c: Clock)
    ensures Normal(c) && TotalSeconds(c) == s
  {
    var rest := s % 3600;
    Clock(s / 3600, rest / 60, rest % 60)
  }

  /** The decomposition is the only normal clock with the given total. */
  lemma ClockUnique(c: Clock, s: nat)
    requires Normal(c) && TotalSeconds(c) == s
    ensures c == ToClock(s)
  {
    var within := c.minutes * 60 + c.secs;
    assert within < 3600 && s == c.hours * 3600 + within;
    assert s / 3600 == c.hours && s % 3600 == within;
    assert within / 60 == c.minutes && within % 60 == c.secs;
  }

  /** A number with two decimals, `whole.hh`. */
  datatype Fixed = Fixed(whole: nat, hundredths: nat)

  /** A speed in hundredths, split into units and two decimals, exactly. */
  function SpeedFixed(v: nat): (x: Fixed)
    ensures x.hundredths < 100 && x.whole * 100 + x.hundredths == v
  {
    Fixed(v / 100, v % 100)
  }

  /** A distance in metres shown in thousands with two decimals: the metres
      are truncated to a multiple of ten. */
  function DistanceFixed(d: nat): (x: Fixed)
    ensures x.hundredths < 100
    ensures x.whole * 1000 + x.hundredths * 10 <= d < x.whole * 1000 + x.hundredths * 10 + 10
    ensures x.whole * 100 + x.hundredths == d / 10
  {
    Fixed(d / 1000, (d % 1000) / 10)
  }

  function FixedText(x: Fixed): string
    requires x.hundredths < 100
  {
    Dec(x.whole) + "." + Pad2(x.hundredths)
  }

  function ClockText(c: Clock): string
    requires Normal(c)
  {
    Dec(c.hours) + ":" + Pad2(c.minutes) + ":" + Pad2(c.secs)
  }

  // ----- fields and their text

  datatype Field = Distance | Time | MeanSpeed | MaxSpeed | Cadence | TsDistance | TsTime

  /** The output order of the fields. */
  const AllFields: seq<Field> := [Distance, Time, MeanSpeed, MaxSpeed, Cadence, TsDistance, TsTime]

  lemma AllFieldsComplete(f: Field)
    ensures f in AllFields
  {
    match f
    case Distance => assert AllFields[0] == f;
    case Time => assert AllFields[1] == f;
    case MeanSpeed => assert AllFields[2] == f;
    case MaxSpeed => assert AllFields[3] == f;
    case Cadence => assert AllFields[4] == f;
    case TsDistance => assert AllFields[5] == f;
    case TsTime => assert AllFields[6] == f;
  }

  predicate IsTripSection(f: Field) {
    f == TsDistance || f == TsTime
  }

  function Measure(rd: Readings, f: Field): nat {
    match f
    case Distance => rd.distance
    case Time => rd.seconds
    case MeanSpeed => rd.meanSpeed
    case MaxSpeed => rd.maxSpeed
    case Cadence => rd.cadence
    case TsDistance => rd.tsDistance
    case TsTime => rd.tsSeconds
  }

  /** The emission policy: a field appears when it is nonzero or zeros are
      wanted, and a trip-section field only when trip sections are wanted. */
  predicate Shown(rd: Readings, flags: Flags, f: Field) {
    (Measure(rd, f) > 0 || flags.zeros) && (IsTripSection(f) ==> flags.ts)
  }

  /** A string that neither separates columns nor ends a line. */
  predicate Plain(s: string) {
    ',' !in s && '\n' !in s
  }

  lemma DigitsArePlain(s: string)
    requires AllDigits(s)
    ensures Plain(s)
  {
  }

  lemma FixedTextPlain(x: Fixed)
    requires x.hundredths < 100
    ensures Plain(FixedText(x)) && |FixedText(x)| >= 4
  {
    DigitsArePlain(Dec(x.whole));
    DigitsArePlain(Pad2(x.hundredths));
  }

  /** The value of a field in a raw line: distances and times as plain
      integers, speeds with two decimals. */
  function RawText(rd: Readings, f: Field): (s: string)
    ensures |s| > 0 && Plain(s)
  {
    match f
    case Distance => DigitsArePlain(Dec(rd.distance)); Dec(rd.distance)
    case Time => DigitsArePlain(Dec(rd.seconds)); Dec(rd.seconds)
    case MeanSpeed => FixedTextPlain(SpeedFixed(rd.meanSpeed)); FixedText(SpeedFixed(rd.meanSpeed))
    case MaxSpeed => FixedTextPlain(SpeedFixed(rd.maxSpeed)); FixedText(SpeedFixed(rd.maxSpeed))
    case Cadence => DigitsArePlain(Dec(rd.cadence)); Dec(rd.cadence)
    case TsDistance => DigitsArePlain(Dec(rd.tsDistance)); Dec(rd.tsDistance)
    case TsTime => DigitsArePlain(Dec(rd.tsSeconds)); Dec(rd.tsSeconds)
  }

  function ClockLine(caption: string, s: nat): (t: string)
    requires Plain(caption)
    ensures Plain(t)
  {
    var c := ToClock(s);
    DigitsArePlain(Dec(c.hours));
    DigitsArePlain(Pad2(c.minutes));
    DigitsArePlain(Pad2(c.secs));
    caption + ClockText(c)
  }

  function FixedLine(caption: string, x: Fixed, unit: string): (t: string)
    requires x.hundredths < 100 && Plain(caption) && Plain(unit)
    ensures Plain(t)
  {
    FixedTextPlain(x);
    caption + FixedText(x) + " " + unit
  }

  /** The labelled line of a field, without its line end. */
  function LabeledText(rd: Readings, u: Units, f: Field): (s: string)
    ensures Plain(s)
  {
    match f
    case Distance => FixedLine("distance: ", DistanceFixed(rd.distance), DistanceUnit(u))
    case Time => ClockLine("time: ", rd.seconds)
    case MeanSpeed => FixedLine("meanspeed: ", SpeedFixed(rd.meanSpeed), SpeedUnit(u))
    case MaxSpeed => FixedLine("maxspeed: ", SpeedFixed(rd.maxSpeed), SpeedUnit(u))
    case Cadence => DigitsArePlain(Dec(rd.cadence)); "cadence: " + Dec(rd.cadence) + "/min"
    case TsDistance => FixedLine("ts_dist: ", DistanceFixed(rd.tsDistance), DistanceUnit(u))
    case TsTime => ClockLine("ts_time: ", rd.tsSeconds)
  }

  // ----- the output, statement by statement

  /** What one field prints: its raw value, or its labelled line, or nothing
      when it is zero and zeros are suppressed. */
  function Chunk(rd: Readings, flags: Flags, u: Units, f: Field): string {
    if Measure(rd, f) > 0 || flags.zeros then
      (if flags.raw then RawText(rd, f) else LabeledText(rd, u, f) + "\n")
    else ""
  }

  /** The chunks of all seven fields, in output order. */
  function Chunks(rd: Readings, flags: Flags, u: Units): (cs: seq<string>)
    ensures |cs| == |AllFields|
    ensures forall i :: 0 <= i < |cs| ==> cs[i] == Chunk(rd, flags, u, AllFields[i])
  {
    [Chunk(rd, flags, u, Distance), Chunk(rd, flags, u, Time), Chunk(rd, flags, u, MeanSpeed),
     Chunk(rd, flags, u, MaxSpeed), Chunk(rd, flags, u, Cadence),
     Chunk(rd, flags, u, TsDistance), Chunk(rd, flags, u, TsTime)]
  }

  function Sep(flags: Flags): string {
    if flags.raw then "," else ""
  }

  /** The print statements of the decoder in order: each of the first five
      chunks followed by a comma in raw mode, the trip-section chunks (with a
      comma between them) only when trip sections are wanted, and a closing
      line end in raw mode. */
  function Assemble(flags: Flags, cs: seq<string>): string
    requires |cs| == 7
  {
    cs[0] + Sep(flags) + cs[1] + Sep(flags) + cs[2] + Sep(flags) + cs[3] + Sep(flags)
    + cs[4] + Sep(flags)
    + (if flags.ts then cs[5] + Sep(flags) + cs[6] else "")
    + (if flags.raw then "\n" else "")
  }

  /** Standard output of the decoder. */
  function Render(rd: Readings, flags: Flags, u: Units): string {
    Assemble(flags, Chunks(rd, flags, u))
  }

  // ----- the output, as a layout

  /** The fields among `fs` that are shown, in order. */
  function Select(rd: Readings, flags: Flags, fs: seq<Field>): (shown: seq<Field>)
    ensures forall f :: f in shown <==> f in fs && Shown(rd, flags, f)
    ensures |shown| <= |fs|
    decreases |fs|
  {
    if |fs| == 0 then []
    else (if Shown(rd, flags, fs[0]) then [fs[0]] else []) + Select(rd, flags, fs[1..])
  }

  /** The fields the emission policy shows, in output order. */
  function ShownFields(rd: Readings, flags: Flags): (fs: seq<Field>)
    ensures forall f :: f in fs <==> Shown(rd, flags, f)
  {
    forall f ensures f in AllFields { AllFieldsComplete(f); }
    Select(rd, flags, AllFields)
  }

  /** The labelled lines of `fs`, each closed by a line end. */
  function Lines(rd: Readings, u: Units, fs: seq<Field>): (t: string)
    ensures ',' !in t
    ensures CountChar(t, '\n') == |fs|
    decreases |fs|
  {
    if |fs| == 0 then ""
    else
      var head := LabeledText(rd, u, fs[0]) + "\n";
      var rest := Lines(rd, u, fs[1..]);
      CountCharAppend(head, rest, '\n');
      CountCharAppend(LabeledText(rd, u, fs[0]), "\n", '\n');
      head + rest
  }

  /** The labelled line of a field if the emission policy shows it. */
  function ShownLine(rd: Readings, flags: Flags, u: Units, f: Field): string {
    if Shown(rd, flags, f) then LabeledText(rd, u, f) + "\n" else ""
  }

  function ShownLines(rd: Readings, flags: Flags, u: Units, fs: seq<Field>): (ls: seq<string>)
    ensures |ls| == |fs|
    ensures forall i :: 0 <= i < |fs| ==> ls[i] == ShownLine(rd, flags, u, fs[i])
  {
    seq(|fs|, i requires 0 <= i < |fs| => ShownLine(rd, flags, u, fs[i]))
  }

  lemma {:induction false} LinesOfSelect(rd: Readings, flags: Flags, u: Units, fs: seq<Field>)
    ensures Lines(rd, u, Select(rd, flags, fs)) == Concat(ShownLines(rd, flags, u, fs))
    decreases |fs|
  {
    if |fs| > 0 {
      LinesOfSelect(rd, flags, u, fs[1..]);
      assert ShownLines(rd, flags, u, fs)[1..] == ShownLines(rd, flags, u, fs[1..]);
      var rest := Select(rd, flags, fs[1..]);
      if Shown(rd, flags, fs[0]) {
        assert ([fs[0]] + rest)[1..] == rest;
      } else {
        assert [] + rest == rest;
      }
    }
  }

  /** Without raw mode the assembled chunks are just their concatenation. */
  lemma AssembleLabeled(flags: Flags, cs: seq<string>)
    requires |cs| == 7 && !flags.raw
    ensures Assemble(flags, cs) == (cs[0] + cs[1] + cs[2] + cs[3] + cs[4]) + (if flags.ts then cs[5] + cs[6] else "")
  {
  }

  /** In raw mode the assembled chunks are comma-joined pieces and a line end. */
  lemma AssembleRaw(flags: Flags, cs: seq<string>)
    requires |cs| == 7 && flags.raw
    ensures Assemble(flags, cs) == Join(cs[..5] + (if flags.ts then cs[5..] else [""]), ',') + "\n"
  {
    var rest := if flags.ts then cs[5..] else [""];
    assert cs[..5] == [cs[0], cs[1], cs[2], cs[3], cs[4]];
    JoinFive(cs[0], cs[1], cs[2], cs[3], cs[4], rest, ',');
    if flags.ts {
      assert Join(rest, ',') == cs[5] + "," + cs[6] by {
        assert rest[1..] == [cs[6]];
      }
    }
  }

  /** Outside raw mode a field's chunk is its line under the emission
      policy, for every field the decoder prints. */
  lemma ChunkIsShownLine(rd: Readings, flags: Flags, u: Units, f: Field)
    requires !flags.raw && (IsTripSection(f) ==> flags.ts)
    ensures Chunk(rd, flags, u, f) == ShownLine(rd, flags, u, f)
  {
  }

  /** The shown lines of the five base fields, and of the two trip-section
      fields. */
  function BaseLines(rd: Readings, flags: Flags, u: Units): string {
    ShownLine(rd, flags, u, Distance) + ShownLine(rd, flags, u, Time)
    + ShownLine(rd, flags, u, MeanSpeed) + ShownLine(rd, flags, u, MaxSpeed)
    + ShownLine(rd, flags, u, Cadence)
  }

  function TripLines(rd: Readings, flags: Flags, u: Units): string {
    ShownLine(rd, flags, u, TsDistance) + ShownLine(rd, flags, u, TsTime)
  }

  lemma ShownLinesOfAll(rd: Readings, flags: Flags, u: Units)
    ensures Concat(ShownLines(rd, flags, u, AllFields)) == BaseLines(rd, flags, u) + TripLines(rd, flags, u)
  {
    Concat7(ShownLines(rd, flags, u, AllFields));
  }

  lemma BaseChunks(rd: Readings, flags: Flags, u: Units)
    requires !flags.raw
    ensures Chunk(rd, flags, u, Distance) + Chunk(rd, flags, u, Time)
            + Chunk(rd, flags, u, MeanSpeed) + Chunk(rd, flags, u, MaxSpeed)
            + Chunk(rd, flags, u, Cadence) == BaseLines(rd, flags, u)
  {
    ChunkIsShownLine(rd, flags, u, Distance);
    ChunkIsShownLine(rd, flags, u, Time);
    ChunkIsShownLine(rd, flags, u, MeanSpeed);
    ChunkIsShownLine(rd, flags, u, MaxSpeed);
    ChunkIsShownLine(rd, flags, u, Cadence);
  }

  lemma TripChunks(rd: Readings, flags: Flags, u: Units)
    requires !flags.raw
    ensures (if flags.ts then Chunk(rd, flags, u, TsDistance) + Chunk(rd, flags, u, TsTime) else "")
            == TripLines(rd, flags, u)
  {
    if flags.ts {
      ChunkIsShownLine(rd, flags, u, TsDistance);
      ChunkIsShownLine(rd, flags, u, TsTime);
    }
  }

  lemma RenderLabeled(rd: Readings, flags: Flags, u: Units)
    requires !flags.raw
    ensures Render(rd, flags, u)
         == (Chunk(rd, flags, u, Distance) + Chunk(rd, flags, u, Time)
             + Chunk(rd, flags, u, MeanSpeed) + Chunk(rd, flags, u, MaxSpeed)
             + Chunk(rd, flags, u, Cadence))
            + (if flags.ts then Chunk(rd, flags, u, TsDistance) + Chunk(rd, flags, u, TsTime) else "")
  {
    AssembleLabeled(flags, Chunks(rd, flags, u));
  }

  lemma RenderIsShownLines(rd: Readings, flags: Flags, u: Units)
    requires !flags.raw
    ensures Render(rd, flags, u) == BaseLines(rd, flags, u) + TripLines(rd, flags, u)
  {
    RenderLabeled(rd, flags, u);
    BaseChunks(rd, flags, u);
    TripChunks(rd, flags, u);
  }

  lemma LinesAreShownLines(rd: Readings, flags: Flags, u: Units)
    ensures Lines(rd, u, ShownFields(rd, flags)) == BaseLines(rd, flags, u) + TripLines(rd, flags, u)
  {
    LinesOfSelect(rd, flags, u, AllFields);
    ShownLinesOfAll(rd, flags, u);
  }

  /** In labelled mode the output is the line of every shown field, in field
      order, and nothing else. */
  lemma LabeledLayout(rd: Readings, flags: Flags, u: Units)
    requires !flags.raw
    ensures Render(rd, flags, u) == Lines(rd, u, ShownFields(rd, flags))
  {
    RenderIsShownLines(rd, flags, u);
    LinesAreShownLines(rd, flags, u);
  }

  /** The raw columns: the five base fields, then the two trip-section
      fields when they are wanted. */
  function Columns(ts: bool): seq<Field> {
    if ts then AllFields else AllFields[..5]
  }

  /** A column's cell: the raw value, or empty when the field is suppressed. */
  function Cell(rd: Readings, flags: Flags, f: Field): string {
    if Shown(rd, flags, f) then RawText(rd, f) else ""
  }

  function Cells(rd: Readings, flags: Flags): (cells: seq<string>)
    ensures |cells| == |Columns(flags.ts)|
    ensures forall i :: 0 <= i < |cells| ==> cells[i] == Cell(rd, flags, Columns(flags.ts)[i])
    ensures forall i :: 0 <= i < |cells| ==> (cells[i] == "" <==> !Shown(rd, flags, Columns(flags.ts)[i]))
    ensures Free(cells, ',') && Free(cells, '\n')
  {
    var cols := Columns(flags.ts);
    seq(|cols|, i requires 0 <= i < |cols| => Cell(rd, flags, cols[i]))
  }

  /** The comma-separated pieces of a raw line before its line end: the
      cells, and without trip sections one more, always empty, piece after
      the comma that follows the fifth field. */
  function RawPieces(rd: Readings, flags: Flags): seq<string> {
    Cells(rd, flags) + (if flags.ts then [] else [""])
  }

  /** In raw mode the output is the comma-joined pieces and one line end. */
  lemma RawLayout(rd: Readings, flags: Flags, u: Units)
    requires flags.raw
    ensures Render(rd, flags, u) == Join(RawPieces(rd, flags), ',') + "\n"
  {
    var cs := Chunks(rd, flags, u);
    AssembleRaw(flags, cs);
    assert cs[..5] + (if flags.ts then cs[5..] else [""]) == RawPieces(rd, flags);
  }

  /** Column stability of the raw line: five commas without trip sections
      and six with them, whatever the values and the zeros setting; exactly
      one line end, at the end; and reading the line back at its commas
      gives each column's cell, empty where a field was suppressed. */
  lemma RawLine(rd: Readings, flags: Flags, u: Units)
    requires flags.raw
    ensures var out := Render(rd, flags, u);
      && |out| > 0 && out[|out| - 1] == '\n'
      && CountChar(out, ',') == (if flags.ts then 6 else 5)
      && CountChar(out, '\n') == 1
      && Split(out[..|out| - 1], ',') == RawPieces(rd, flags)
  {
    RawLayout(rd, flags, u);
    var p := RawPieces(rd, flags);
    assert Free(p, ',') && Free(p, '\n');
    TerminatedLine(p, ',', '\n');
  }

  /** Labelled output never holds a comma, and has one line per shown field,
      the trip-section lines only when trip sections are wanted. */
  lemma LabeledOutput(rd: Readings, flags: Flags, u: Units)
    requires !flags.raw
    ensures ',' !in Render(rd, flags, u)
    ensures CountChar(Render(rd, flags, u), '\n') == |ShownFields(rd, flags)|
    ensures forall f :: f in ShownFields(rd, flags) <==> Shown(rd, flags, f)
    ensures !flags.ts ==> TsDistance !in ShownFields(rd, flags) && TsTime !in ShownFields(rd, flags)
  {
    LabeledLayout(rd, flags, u);
  }

  // ----- the decoder

  /** Diagnostics about the data reply; they never stop the decoding. */
  datatype Remark =
    | MoreRecords(count: nat)  // the unit holds `count` records; the oldest is read
    | UnexpectedMid            // bytes 12-13 are not zero
    | UnexpectedTail           // bytes 20-26 are not all zero

  datatype Report = Report(remarks: seq<Remark>, stdout: string)

  /** The diagnostics the decoder writes about a reply, in order. */
  function Remarks(buf: seq<Byte>): (rs: seq<Remark>)
    requires |buf| == ReplyLength
    ensures MoreRecords(buf[0] as nat + 1) in rs <==> buf[0] > 0
    ensures UnexpectedMid in rs <==> buf[12] != 0 || buf[13] != 0
    ensures UnexpectedTail in rs <==> exists i :: 20 <= i < 27 && buf[i] != 0
    ensures |rs| <= 3
  {
    (if buf[0] > 0 then [MoreRecords(buf[0] as nat + 1)] else [])
    + (if buf[12] != 0 || buf[13] != 0 then [UnexpectedMid] else [])
    + (if exists i | 20 <= i < 27 :: buf[i] != 0 then [UnexpectedTail] else [])
  }

  /** Decode a data reply and render it; never fails. */
  function Decode27(buf: seq<Byte>, flags: Flags, u: Units): (rep: Report)
    requires |buf| == ReplyLength
    ensures rep.remarks == Remarks(buf)
    ensures flags.raw ==> CountChar(rep.stdout, ',') == (if flags.ts then 6 else 5)
    ensures flags.raw ==> CountChar(rep.stdout, '\n') == 1
    ensures !flags.raw ==> ',' !in rep.stdout
    ensures !flags.raw ==> CountChar(rep.stdout, '\n') == |ShownFields(Readout(buf, u), flags)|
  {
    var rd := Readout(buf, u);
    var out := Render(rd, flags, u);
    if flags.raw then
      RawLine(rd, flags, u);
      Report(Remarks(buf), out)
    else
      LabeledOutput(rd, flags, u);
      Report(Remarks(buf), out)
  }

  // ----- worked examples

  /** 10000 m print as 10.00 km, and as 6.21 mi (6213 scaled metres). */
  lemma DistanceExample(buf: seq<Byte>)
    requires |buf| == ReplyLength && buf[1] == 0x00 && buf[2] == 0x27 && buf[3] == 0x10
    ensures LabeledText(Readout(buf, Metric), Metric, Distance) == "distance: 10.00 km"
    ensures Readout(buf, Imperial).distance == 6213
    ensures LabeledText(Readout(buf, Imperial), Imperial, Distance) == "distance: 6.21 mi"
  {
    assert Readout(buf, Metric).distance == 10000;
    assert DistanceFixed(10000) == Fixed(10, 0);
    assert FixedText(Fixed(10, 0)) == "10.00" by {
      assert Dec(10) == "10" by { assert Dec(1) == "1"; }
      assert Pad2(0) == "00";
    }
    assert Scale(10000, Imperial) == 6213;
    assert DistanceFixed(6213) == Fixed(6, 21);
    assert FixedText(Fixed(6, 21)) == "6.21" by {
      assert Dec(6) == "6";
      assert Pad2(21) == "21";
    }
  }

  /** 3725 s print as 1:02:05. */
  lemma TimeExample(rd: Readings)
    requires rd.seconds == 3725
    ensures LabeledText(rd, Metric, Time) == "time: 1:02:05"
  {
    assert ToClock(3725) == Clock(1, 2, 5);
    assert Dec(1) == "1";
    assert Pad2(2) == "02";
    assert Pad2(5) == "05";
  }
}
