# sdsdata in Dafny

A model of `sdsdata`, a command-line tool that reads the last ride of a Sigma
BC 16.12 bike computer sitting in a TL2012 docking station (the "cradle") over
USB, and prints it. It covers four parts of `src/main.rs`:

- **Command line and exit status** (module `Config`, and `Protocol.ExitCode`).
  Parsing turns the arguments into the eight `Flags`. Recognised switches are
  `--clear --dump --miles --no-ts --no-zeros --raw --wait-remove`; any other
  argument clears `run`. The exit status is 2 for a bad argument, 1 for a
  session that did not get to the end, and 0 otherwise (panics aside, see
  "Left out").
- **The session with the cradle** (module `Protocol`, the function
  `mappuoglio`). It runs these stages in order:
  1. a quick probe poll; a timeout leads to one channel reset;
  2. polling until the unit is present;
  3. the 11-byte identification;
  4. the 27-byte data fetch and its decoding;
  5. an optional counter reset;
  6. a final poll, or a wait until the unit is removed.

  The transport is a *script*: one `Result` per write, read or reset, in call
  order. A session is a `Trace` with one `Entry` per consumed result: the call
  made, the result, and the notes, dumps, decoder runs and pauses it caused.
  Every failed transfer ends the session, and so does every reply of the wrong
  length, as the `usbtry!` and `usbytes!` macros make it do. The one exception
  is the probe, where a timeout leads to the reset.
- **The decoder** (module `Telemetry`, the function `decode27`). It covers:
  - the big-endian fields of the data reply;
  - the conversion to miles;
  - `H:MM:SS` times and two-decimal distances and speeds;
  - the emission policy: a zero field is printed only with zeros on, and the
    trip-section fields only with `ts` on;
  - the two output forms: labelled lines, or one comma-separated raw line;
  - the diagnostics about unexpected reply bytes.
- **Support modules.** `Bytes` has the byte type and big-endian fields.
  `Decimal` renders numbers as Rust's `{}` and `{:02}` do. `Text` counts,
  joins and splits lines at a separator.

Notes on reading the code. Where the code and its comments could be read two
ways, the model follows the code:

- The serial number is printed as the decimal value of each of identification
  bytes 2-5, with nothing between them. It is not a string of digit
  characters, and different serials can print alike (`SerialTextAmbiguous`).
- The unit kind is dispatched on identification byte 1. Byte 0 and byte 6 are
  printed as the type and the version.
- Without trip sections the raw line still ends with the comma after the fifth
  field, so it holds five commas. With trip sections it holds six, and no
  trailing comma.
- While waiting for the unit, any answer other than 1 counts as an empty
  cradle. During the removal wait, any nonzero answer keeps the loop going.
- The removal notice comes after the counter reset when there is one. Without
  one, it comes right after the decoded output.

## Model

| member | source | states |
|---|---|---|
| Config.Classify | src/main.rs:96-105 | an argument is unrecognised exactly when it is not one of the seven exact switch spellings |
| Config.ApplySpec | src/main.rs:96-105 | one argument sets (or, for `--no-ts` and `--no-zeros`, clears) only the option it spells; it clears `run` exactly when it is unrecognised |
| Config.ParseOptionsSpec | src/main.rs:95-106 | after the argument loop, each option is on exactly when its switch occurs somewhere, whatever the order or repetition; `run` survives exactly when every argument is recognised |
| Config.ParseArgs | src/main.rs:82-106 | the program name is skipped; with no arguments the defaults hold (only `ts`, `zeros` and `run` on); otherwise each option follows from the presence of its switch, and `run` holds exactly when every argument after the first is recognised |
| Protocol.ExitCode | src/main.rs:108-117 | the exit status is 2 exactly for an unrecognised argument, 0 exactly for a recognised command line whose session completed, and 1 otherwise |
| Protocol.Conclude | src/main.rs:342 | the session clears `run` exactly when it completed, and changes no other option |
| Bytes.Be16 | src/main.rs:354-355 | a 2-byte field is below 2^16, and its quotient and remainder by 256 are the high and low bytes |
| Bytes.Be24 | src/main.rs:352-353 | a 3-byte field is below 2^24, and its three base-256 digits are the three bytes |
| Bytes.Be16Injective | src/main.rs:354-355 | re-encoding a decoded 2-byte field gives back its bytes |
| Bytes.Be24Injective | src/main.rs:361-362 | re-encoding a decoded 3-byte field gives back its bytes |
| Decimal.Dec | src/main.rs:385 | `{}` on an unsigned value is a non-empty digit string that starts with `0` only for zero |
| Decimal.Pad2 | src/main.rs:386 | `{:02}` on a value below 100 is exactly two digits denoting that value |
| Decimal.DecRoundTrip | src/main.rs:391 | reading the printed digits back gives the printed number |
| Decimal.DecInjective | src/main.rs:409 | two different numbers never print alike |
| Telemetry.EncodeParse | src/main.rs:352-370 | parsing the 27-byte reply loses nothing: the parsed fields re-encode to the very bytes read |
| Telemetry.ParseEncode | src/main.rs:352-362 | every reply whose fields fit their widths is what parsing its encoding yields |
| Telemetry.Scale | src/main.rs:377-382 | kilometres pass unchanged; miles are the value divided by 1.609344 and truncated, never more than the input |
| Telemetry.Readout | src/main.rs:352-382 | each field is its big-endian bytes; distances and speeds are scaled, times and cadence never are, and no field outgrows the width it was read with |
| Telemetry.ToClock | src/main.rs:372-375 | the hours, minutes and seconds printed are a normal clock (minutes and seconds below 60) with the same total |
| Telemetry.ClockUnique | src/main.rs:372-375 | that clock is the only normal one with the given total |
| Telemetry.SpeedFixed | src/main.rs:396-398 | a speed in hundredths prints as units and two decimals that together are exactly the value |
| Telemetry.DistanceFixed | src/main.rs:384-386 | a distance in metres prints as kilometres with two decimals, truncated to the 10 metres below it |
| Telemetry.RawText | src/main.rs:384-423 | every raw value is non-empty and holds neither a comma nor a line end |
| Telemetry.LabeledText | src/main.rs:384-423 | no labelled line holds a comma or a line end of its own |
| Telemetry.Select | src/main.rs:384-425 | a field is selected exactly when it is listed and the emission policy shows it |
| Telemetry.ShownFields | src/main.rs:384-425 | a field is printed exactly when it is nonzero or zeros are wanted, and, for a trip-section field, trip sections are wanted |
| Telemetry.Lines | src/main.rs:384-425 | labelled lines hold no comma, and exactly one line end per field |
| Telemetry.Cells | src/main.rs:384-425 | the raw columns are the five base fields, then the two trip-section fields when wanted; a cell is empty exactly when its field is suppressed, and no cell holds a comma or line end |
| Telemetry.LabeledLayout | src/main.rs:384-425 | labelled output is the line of every shown field in field order, and nothing else |
| Telemetry.RawLayout | src/main.rs:384-426 | raw output is the cells joined by commas (plus one empty piece without trip sections) and one line end |
| Telemetry.RawLine | src/main.rs:384-426 | the raw line holds 5 commas without trip sections and 6 with them, whatever the values and the zeros setting; it has one line end, at the end; splitting it at the commas gives back every cell, empty ones included |
| Telemetry.LabeledOutput | src/main.rs:384-425 | labelled output holds no comma and has one line per shown field, with no trip-section line when trip sections are off |
| Telemetry.Remarks | src/main.rs:348-370 | the record-count remark (count = byte 0 plus one) appears exactly when byte 0 is nonzero; the reserved-bytes remarks appear exactly when bytes 12-13, or bytes 20-26, are not all zero |
| Telemetry.Decode27 | src/main.rs:346-427 | decoding never fails; it gives the remarks above, and the output layout: the raw comma and line-end counts, or comma-free labelled output with one line per shown field |
| Telemetry.DistanceExample | src/main.rs:377-386 | 10000 m print as `distance: 10.00 km`, and as `distance: 6.21 mi` in miles |
| Telemetry.TimeExample | src/main.rs:390-392 | 3725 s print as `time: 1:02:05` |
| Protocol.CommandBytes | src/main.rs:217-218 | commands are one byte, except the two-byte counter reset |
| Protocol.CommandBytesInjective | src/main.rs:217-224 | no two commands share their bytes on the wire |
| Protocol.PhaseWrites | src/main.rs:223-330 | every write of the session is one of the four commands; the poll, and only the poll, is written with the short timeout; only the counter reset writes two bytes |
| Protocol.SerialText | src/main.rs:300 | the serial number prints as digits only, at least one per byte |
| Protocol.SerialTextAmbiguous | src/main.rs:300 | serials 1,23,4,5 and 12,3,4,5 both print as `12345` |
| Protocol.ProbeStep | src/main.rs:223-252 | the probe leads to the channel reset exactly when the poll or its answer timed out; any other failure ends the session with that call; a successful poll write leads to its answer; an answer of one byte leads to the wait, any other length ends the session |
| Protocol.Arrival | src/main.rs:254-271 | answer 1 moves on to identification; any other answer keeps waiting, with the empty cradle already reported |
| Protocol.ArrivalOutputs | src/main.rs:254-271 | answer 1 is reported as the unit found; the first other answer reports the empty cradle; every other answer is followed by a pause |
| Protocol.Identification | src/main.rs:287-298 | unit byte 0 ends the session; any other value goes on to the data fetch |
| Protocol.UnitNotesSpec | src/main.rs:287-300 | a supported unit is reported with its type and version; any other nonzero unit byte gets a warning; the serial number follows either way |
| Protocol.IdentificationOutputs | src/main.rs:277-300 | the identification packet is dumped exactly when asked for; the reserved-bytes remark appears exactly when bytes 7-10 are not all zero; the kind notice, the unknown-unit warning and the serial number appear exactly under their conditions on byte 1 |
| Protocol.Delivery | src/main.rs:302-324 | after the data reply the session goes to the counter reset when asked for it, and to the final poll otherwise |
| Protocol.DeliveryOutputs | src/main.rs:302-324 | the data packet is dumped exactly when asked for; the reply is decoded in the chosen units; the removal notice follows at once exactly when there is no counter reset and the removal wait is on |
| Protocol.Clearing | src/main.rs:311-322 | a zero answer to the reset moves on to the final poll; any other answer ends the session |
| Protocol.ClearingOutputs | src/main.rs:311-324 | the counters are reported cleared exactly on a zero answer, and the removal notice follows exactly then with the removal wait on |
| Protocol.Patting | src/main.rs:325-342 | without the removal wait any answer completes the session; with it, only a zero answer does, and anything else polls again |
| Protocol.PattingOutputs | src/main.rs:325-340 | the unit is reported removed exactly on a zero answer during the removal wait, and a pause follows exactly a nonzero one |
| Protocol.Accept | src/main.rs:254-342 | a reply of the expected length never goes back to the probe; it either advances or re-polls in one of the two loops; only a final-poll answer completes the session, and with the removal wait only a zero one |
| Protocol.Step | src/main.rs:41-63 | the channel reset comes exactly from a probe timeout; past the probe every failed transfer ends the session; a reply of the wrong length ends it with the expected and received sizes; completion comes only from a one-byte answer to the final poll |
| Protocol.StepOutputs | src/main.rs:254-340 | a step runs the decoder exactly on a data reply of the right length; it reports the empty cradle exactly on the first negative answer of the wait; it pauses exactly on a negative answer in one of the two polling loops |
| Protocol.RunFrom | src/main.rs:205-343 | each entry of a run consumed the matching script result; a run stops only at a final phase or when the script runs out |
| Protocol.ResetOnce | src/main.rs:223-252 | a session resets the channel at most once, and exactly when the probe poll or its answer timed out and a result is left for the reset |
| Protocol.CompletedClean | src/main.rs:223-342 | a completed session saw no failed transfer, except probe timeouts among its first two results |
| Protocol.CompletedLast | src/main.rs:325-342 | a completed session ends on a one-byte answer to a quick poll, a zero answer when the removal wait is on |
| Protocol.ReportOnce | src/main.rs:302-309 | a session decodes at most one data reply, and a completed session exactly one |
| Protocol.EmptyOnce | src/main.rs:265-268 | however long the wait, the empty cradle is reported at most once |
| Protocol.PollScript | src/main.rs:254-258 | each poll round is a successful write followed by its one-byte answer |
| Protocol.WaitLoop | src/main.rs:254-271 | any number of non-1 answers is that many pauses and at most one empty-cradle notice, after which the wait goes on unchanged |
| Protocol.UnitArrives | src/main.rs:254-262 | answer 1 reports the unit found and goes on to identification, after exactly one poll round |
| Protocol.RemovalLoop | src/main.rs:325-340 | with the removal wait on, each nonzero answer costs one poll round and one pause |
| Protocol.FinalPoll | src/main.rs:325-342 | one poll round completes the session: any answer without the removal wait, a zero one with it |

## Left out

- The libusb plumbing (`run`, `open_device`, `use_device`, `src/main.rs:120-201`) is left out: the library context, finding the device, kernel-driver detach, configuration and claiming the interface. A device that cannot be opened is a session that did not complete, so `ExitCode` gives it 1.
- `Protocol.ExitCode` does not model panics, which exit with status 101: `std::env::args()` panics on an argument that is not valid Unicode (`src/main.rs:94`), which Dafny strings cannot hold; `print!`/`println!` panic when the write to standard output fails (`src/main.rs:385-426`); `hexdump!` unwraps its write to standard error (`src/main.rs:36`). A session that reached `src/main.rs:342` can therefore still end with 101. It also reads a trace that stopped only because the script ran out, such as one still in the wait loop, as a session that did not complete; the program itself would still be polling and has not exited yet.
- Real time is not modelled. Timeouts are labels on the calls (1000, 6000 and 12000 ms). A pause is a `Sleep` output, not a delay.
- The exact wording of the `msg!` notes on stderr and the `hexdump!` layout are left out. The model records which note or dump is written and with which values, not its characters.
- The count of bytes a bulk write reports is ignored, as in the code. Reads are modelled by the bytes they return. The 32-byte read buffer only bounds reply lengths, which the length checks already pin down.
- `Telemetry.Scale` does not model the double-precision division by 1.609344: it uses the exact quotient, truncated. The rounding of the double makes the printed value one lower for 186 distances and speeds below 2^24, all of them multiples of 25146; two of them, 25146 and 50292, lie in the 16-bit speed range.
- The helper scripts under `extra/` (a trip database and a tweet formatter) consume the tool's output. They are not part of this model.
