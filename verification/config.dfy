/** The run options of the tool and how the command line sets them. */
module Config {

  /** One boolean per option; `run` starts true and is cleared either by an
      unrecognised argument or, at the very end of a successful session, by
      the protocol engine. */
  datatype Flags = Flags(
    clear: bool,   // reset the unit's counters after a successful read
    dump: bool,    // hex-dump the identification and data packets
    miles: bool,   // convert kilometres to miles
    ts: bool,      // also output the trip-section fields
    zeros: bool,   // also output zero-valued fields
    raw: bool,     // one comma-separated line of raw values
    remove: bool,  // after output, wait until the unit leaves the cradle
    run: bool)

  const Defaults: Flags := Flags(false, false, false, true, true, false, false, true)

  const Known: set<string> :=
    {"--clear", "--dump", "--miles", "--no-ts", "--no-zeros", "--raw", "--wait-remove"}

  /** The command-line switches the tool recognises. */
  datatype Switch = Clear | Dump | Miles | NoTs | NoZeros | Raw | WaitRemove | Unknown

  /** Which switch an argument spells; only the exact spellings count. */
  function Classify(arg: string): (s: Switch)
    ensures s == Unknown <==> arg !in Known
  {
    if arg == "--clear" then Clear
    else if arg == "--dump" then Dump
    else if arg == "--miles" then Miles
    else if arg == "--no-ts" then NoTs
    else if arg == "--no-zeros" then NoZeros
    else if arg == "--raw" then Raw
    else if arg == "--wait-remove" then WaitRemove
    else Unknown
  }

  /** The effect of one argument. */
  function Apply(f: Flags, arg: string): Flags {
    match Classify(arg)
    case Clear => f.(clear := true)
    case Dump => f.(dump := true)
    case Miles => f.(miles := true)
    case NoTs => f.(ts := false)
    case NoZeros => f.(zeros := false)
    case Raw => f.(raw := true)
    case WaitRemove => f.(remove := true)
    case Unknown => f.(run := false)
  }

  // One lemma per option: each case split stays small when stated alone.

  lemma ApplyClear(f: Flags, arg: string)
    ensures Apply(f, arg).clear == (f.clear || arg == "--clear")
  {
    if arg == "--clear" { assert Classify(arg) == Clear; } else { assert Classify(arg) != Clear; }
  }

  lemma ApplyDump(f: Flags, arg: string)
    ensures Apply(f, arg).dump == (f.dump || arg == "--dump")
  {
    if arg == "--dump" { assert Classify(arg) == Dump; } else { assert Classify(arg) != Dump; }
  }

  lemma ApplyMiles(f: Flags, arg: string)
    ensures Apply(f, arg).miles == (f.miles || arg == "--miles")
  {
    if arg == "--miles" { assert Classify(arg) == Miles; } else { assert Classify(arg) != Miles; }
  }

  lemma ApplyNoTs(f: Flags, arg: string)
    ensures Apply(f, arg).ts == (f.ts && arg != "--no-ts")
  {
    if arg == "--no-ts" { assert Classify(arg) == NoTs; } else { assert Classify(arg) != NoTs; }
  }

  lemma ApplyNoZeros(f: Flags, arg: string)
    ensures Apply(f, arg).zeros == (f.zeros && arg != "--no-zeros")
  {
    if arg == "--no-zeros" { assert Classify(arg) == NoZeros; } else { assert Classify(arg) != NoZeros; }
  }

  lemma ApplyRaw(f: Flags, arg: string)
    ensures Apply(f, arg).raw == (f.raw || arg == "--raw")
  {
    if arg == "--raw" { assert Classify(arg) == Raw; } else { assert Classify(arg) != Raw; }
  }

  lemma ApplyWaitRemove(f: Flags, arg: string)
    ensures Apply(f, arg).remove == (f.remove || arg == "--wait-remove")
  {
    if arg == "--wait-remove" { assert Classify(arg) == WaitRemove; } else { assert Classify(arg) != WaitRemove; }
  }

  lemma ApplyRun(f: Flags, arg: string)
    ensures Apply(f, arg).run == (f.run && arg in Known)
  {
    if arg in Known { assert Classify(arg) != Unknown; } else { assert Classify(arg) == Unknown; }
  }

  /** One argument sets at most the option it names; anything unrecognised
      clears `run`. */
  lemma ApplySpec(f: Flags, arg: string)
    ensures Apply(f, arg).clear == (f.clear || arg == "--clear")
    ensures Apply(f, arg).dump == (f.dump || arg == "--dump")
    ensures Apply(f, arg).miles == (f.miles || arg == "--miles")
    ensures Apply(f, arg).ts == (f.ts && arg != "--no-ts")
    ensures Apply(f, arg).zeros == (f.zeros && arg != "--no-zeros")
    ensures Apply(f, arg).raw == (f.raw || arg == "--raw")
    ensures Apply(f, arg).remove == (f.remove || arg == "--wait-remove")
    ensures Apply(f, arg).run == (f.run && arg in Known)
  {
    ApplyClear(f, arg);
    ApplyDump(f, arg);
    ApplyMiles(f, arg);
    ApplyNoTs(f, arg);
    ApplyNoZeros(f, arg);
    ApplyRaw(f, arg);
    ApplyWaitRemove(f, arg);
    ApplyRun(f, arg);
  }

  /** The arguments applied left to right, starting from `f`. */
  function ParseOptions(f: Flags, args: seq<string>): Flags
    decreases |args|
  {
    if |args| == 0 then f else ParseOptions(Apply(f, args[0]), args[1..])
  }

  lemma InFirstOrRest(x: string, s: seq<string>)
    requires |s| > 0
    ensures x in s <==> x == s[0] || x in s[1..]
  {
    assert s == [s[0]] + s[1..];
  }

  predicate AllKnown(args: seq<string>) {
    forall i :: 0 <= i < |args| ==> args[i] in Known
  }

  lemma AllKnownFirstAndRest(args: seq<string>)
    requires |args| > 0
    ensures AllKnown(args) <==> args[0] in Known && AllKnown(args[1..])
  {
    if args[0] in Known && AllKnown(args[1..]) {
      forall i | 1 <= i < |args| ensures args[i] in Known {
        assert args[i] == args[1..][i - 1];
      }
    }
  }

  /** Every option is set exactly when its argument occurs somewhere, whatever
      the order or repetition, and `run` survives only if every argument is
      recognised. */
  lemma {:induction false} ParseOptionsSpec(f: Flags, args: seq<string>)
    ensures ParseOptions(f, args).clear == (f.clear || "--clear" in args)
    ensures ParseOptions(f, args).dump == (f.dump || "--dump" in args)
    ensures ParseOptions(f, args).miles == (f.miles || "--miles" in args)
    ensures ParseOptions(f, args).ts == (f.ts && "--no-ts" !in args)
    ensures ParseOptions(f, args).zeros == (f.zeros && "--no-zeros" !in args)
    ensures ParseOptions(f, args).raw == (f.raw || "--raw" in args)
    ensures ParseOptions(f, args).remove == (f.remove || "--wait-remove" in args)
    ensures ParseOptions(f, args).run == (f.run && AllKnown(args))
    decreases |args|
  {
    if |args| > 0 {
      ParseOptionsSpec(Apply(f, args[0]), args[1..]);
      ApplySpec(f, args[0]);
      InFirstOrRest("--clear", args);
      InFirstOrRest("--dump", args);
      InFirstOrRest("--miles", args);
      InFirstOrRest("--no-ts", args);
      InFirstOrRest("--no-zeros", args);
      InFirstOrRest("--raw", args);
      InFirstOrRest("--wait-remove", args);
      AllKnownFirstAndRest(args);
    }
  }

  /** The command line, program name first, as the tool reads it: the first
      word is skipped and the defaults are `ts` and `zeros` on. */
  function ParseArgs(argv: seq<string>): (f: Flags)
    ensures |argv| <= 1 ==> f == Defaults
    ensures |argv| > 1 ==> (f.clear <==> "--clear" in argv[1..])
    ensures |argv| > 1 ==> (f.dump <==> "--dump" in argv[1..])
    ensures |argv| > 1 ==> (f.miles <==> "--miles" in argv[1..])
    ensures |argv| > 1 ==> (f.ts <==> "--no-ts" !in argv[1..])
    ensures |argv| > 1 ==> (f.zeros <==> "--no-zeros" !in argv[1..])
    ensures |argv| > 1 ==> (f.raw <==> "--raw" in argv[1..])
    ensures |argv| > 1 ==> (f.remove <==> "--wait-remove" in argv[1..])
    ensures f.run <==> forall i :: 1 <= i < |argv| ==> argv[i] in Known
  {
    var args := if |argv| == 0 then [] else argv[1..];
    ParseOptionsSpec(Defaults, args);
    assert forall i :: 1 <= i < |argv| ==> argv[i] == args[i - 1];
    ParseOptions(Defaults, args)
  }
}
