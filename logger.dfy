/** A logger with a severity threshold that hands one formatted line to each
    of its transports, in the order they were attached. */
module Logger {
  import opened Wrappers
  import opened Strings

  // ---------------------------------------------------------------------
  // Severities

  datatype Level = Error | Warn | Info

  /** The name of a level, as `setLogLevel` takes it. */
  function Name(l: Level): string {
    match l
    case Error => "error"
    case Warn => "warn"
    case Info => "info"
  }

  /** The severity order used by `shouldLog`, most severe first. */
  const Levels: seq<string> := ["error", "warn", "info"]

  /** A level's position in `Levels`: lower is more severe. */
  function Rank(l: Level): (r: nat)
    ensures r < |Levels| && IndexOf(Levels, Name(l)) == r
  {
    match l
    case Error => 0
    case Warn => 1
    case Info => 2
  }

  /** `shouldLog(level)`: the level's index is at most the threshold's. A
      name outside `Levels` has index -1 and is therefore always logged. */
  function ShouldLog(threshold: Level, level: string): (b: bool)
    ensures forall l: Level :: level == Name(l) ==> (b <==> Rank(l) <= Rank(threshold))
    ensures level !in Levels ==> b
  {
    IndexOf(Levels, level) <= IndexOf(Levels, Name(threshold))
  }

  /** `error` messages pass every threshold. */
  lemma ErrorAlwaysLogged(threshold: Level)
    ensures ShouldLog(threshold, "error")
  {
    assert "error" == Name(Error);
  }

  /** `info` messages pass exactly when the threshold is `"info"`. */
  lemma InfoLoggedIff(threshold: Level)
    ensures ShouldLog(threshold, "info") <==> threshold == Info
  {
    assert "info" == Name(Info);
  }

  /** Lowering the threshold towards `error` never admits more. */
  lemma ShouldLogMonotone(t: Level, u: Level, l: Level)
    requires Rank(t) <= Rank(u)
    ensures ShouldLog(t, Name(l)) ==> ShouldLog(u, Name(l))
  {
  }

  // ---------------------------------------------------------------------
  // Formatting

  /** `formatMessage`: `[timestamp] [context] [LEVEL] message`; the clock
      reading is a parameter. */
  function FormatMessage(timestamp: string, context: string, level: string, message: string): string {
    "[" + timestamp + "] [" + context + "] [" + level + "] " + message
  }

  datatype Fields = Fields(timestamp: string, context: string, level: string, message: string)

  /** Reads `[x] ` off the front of `s`, with `x` up to the first `]`. */
  function Bracketed(s: string): (r: Option<(string, string)>)
    ensures r.Some? ==> s == "[" + r.value.0 + "] " + r.value.1 && ']' !in r.value.0
  {
    if |s| == 0 || s[0] != '[' then None
    else
      var k := LenUntil(s[1..], ']');
      if k + 3 <= |s| && s[k + 1] == ']' && s[k + 2] == ' ' then
        assert s == "[" + s[1..k + 1] + "] " + s[k + 3..];
        Some((s[1..k + 1], s[k + 3..]))
      else None
  }

  /** The inverse of `FormatMessage`, for fields the brackets can delimit. */
  function ParseLine(line: string): (r: Option<Fields>)
    ensures r.Some? ==> ']' !in r.value.timestamp && ']' !in r.value.context && ']' !in r.value.level
  {
    match Bracketed(line)
    case None => None
    case Some((ts, rest)) =>
      match Bracketed(rest)
      case None => None
      case Some((ctx, rest')) =>
        match Bracketed(rest')
        case None => None
        case Some((lvl, msg)) => Some(Fields(ts, ctx, lvl, msg))
  }

  lemma BracketedPrefix(x: string, rest: string)
    requires ']' !in x
    ensures Bracketed("[" + x + "] " + rest) == Some((x, rest))
  {
    var s := "[" + x + "] " + rest;
    assert s[1..] == x + ("] " + rest);
    LenUntilPrefix(x, "] " + rest, ']');
    assert s[1..|x| + 1] == x;
    assert s[|x| + 3..] == rest;
  }

  /** The formatted line as three bracketed fields in a row. */
  lemma FormatShape(timestamp: string, context: string, level: string, message: string)
    ensures "[" + timestamp + "] [" + context + "] [" + level + "] " + message
      == "[" + timestamp + "] " + ("[" + context + "] " + ("[" + level + "] " + message))
  {
    assert "] [" == "] " + "[";
  }

  /** Fields free of `]` are read back from the formatted line. */
  lemma FormatParses(timestamp: string, context: string, level: string, message: string)
    requires ']' !in timestamp && ']' !in context && ']' !in level
    ensures ParseLine(FormatMessage(timestamp, context, level, message))
      == Some(Fields(timestamp, context, level, message))
  {
    var c := "[" + level + "] " + message;
    var b := "[" + context + "] " + c;
    FormatShape(timestamp, context, level, message);
    BracketedPrefix(timestamp, b);
    BracketedPrefix(context, c);
    BracketedPrefix(level, message);
  }

  /** A parsed line formats back to itself. */
  lemma ParseFormats(line: string)
    requires ParseLine(line).Some?
    ensures var f := ParseLine(line).value;
      FormatMessage(f.timestamp, f.context, f.level, f.message) == line
  {
    var r1 := Bracketed(line);
    var r2 := Bracketed(r1.value.1);
    var r3 := Bracketed(r2.value.1);
    var f := ParseLine(line).value;
    assert f == Fields(r1.value.0, r2.value.0, r3.value.0, r3.value.1);
    FormatShape(f.timestamp, f.context, f.level, f.message);
  }

  // ---------------------------------------------------------------------
  // Transports

  /** `ConsoleTransport` and `FileTransport(filePath)`. */
  datatype Transport = Console | File(path: string)

  /** The line a transport writes to the console for `message`; the file
      transport only simulates its write. */
  function Render(t: Transport, message: string): (out: string)
    ensures t.Console? ==> out == message
    ensures t.File? ==> out == "[File] Writing to " + t.path + ": " + message
  {
    match t
    case Console => message
    case File(path) => "[File] Writing to " + path + ": " + message
  }

  /** What a list of transports writes for one message, in list order. */
  function Deliver(ts: seq<Transport>, message: string): (out: seq<string>)
    ensures |out| == |ts|
  {
    if |ts| == 0 then [] else [Render(ts[0], message)] + Deliver(ts[1..], message)
  }

  /** Transport `k` writes the `k`-th line: one copy each, in order. */
  lemma {:induction false} DeliverAt(ts: seq<Transport>, message: string, k: nat)
    requires k < |ts|
    ensures Deliver(ts, message)[k] == Render(ts[k], message)
  {
    if k > 0 {
      DeliverAt(ts[1..], message, k - 1);
    }
  }

  /** Attaching a transport adds its line after all the others. */
  lemma {:induction false} DeliverSnoc(ts: seq<Transport>, t: Transport, message: string)
    ensures Deliver(ts + [t], message) == Deliver(ts, message) + [Render(t, message)]
    decreases |ts|
  {
    if |ts| > 0 {
      assert (ts + [t])[1..] == ts[1..] + [t];
      DeliverSnoc(ts[1..], t, message);
    } else {
      assert ts + [t] == [t];
    }
  }

  /** The console, as the sequence of lines written to it. */
  class Output {
    var lines: seq<string>

    constructor ()
      ensures lines == []
    {
      lines := [];
    }

    /** `console.log(message)`. */
    method Log(message: string)
      modifies this
      ensures lines == old(lines) + [message]
    {
      lines := lines + [message];
    }
  }

  /** `transport.log(message)`. */
  method Send(t: Transport, message: string, out: Output)
    modifies out
    ensures out.lines == old(out.lines) + [Render(t, message)]
  {
    match t
    case Console => out.Log(message);
    case File(path) => out.Log("[File] Writing to " + path + ": " + message);
  }

  // ---------------------------------------------------------------------
  // The logger

  class Logger {
    const context: string
    var transports: seq<Transport>
    var logLevel: Level

    /** A new logger has no transports and the threshold `"info"`. */
    constructor (context: string)
      ensures this.context == context && transports == [] && logLevel == Level.Info
    {
      this.context := context;
      transports := [];
      logLevel := Level.Info;
    }

    /** `addTransport`: appends, with no de-duplication. */
    method AddTransport(t: Transport)
      modifies this
      ensures transports == old(transports) + [t]
      ensures logLevel == old(logLevel)
    {
      transports := transports + [t];
    }

    /** `setLogLevel`. */
    method SetLogLevel(level: Level)
      modifies this
      ensures logLevel == level
      ensures transports == old(transports)
    {
      logLevel := level;
    }

    /** `transports.forEach((t) => t.log(line))`. */
    method Broadcast(line: string, out: Output)
      modifies out
      ensures out.lines == old(out.lines) + Deliver(transports, line)
    {
      for i := 0 to |transports|
        invariant out.lines == old(out.lines) + Deliver(transports[..i], line)
      {
        DeliverSnoc(transports[..i], transports[i], line);
        assert transports[..i + 1] == transports[..i] + [transports[i]];
        Send(transports[i], line, out);
      }
      assert transports[..|transports|] == transports;
    }

    /** `info(message)` at clock reading `timestamp`. */
    method Info(message: string, timestamp: string, out: Output)
      modifies out
      ensures out.lines == old(out.lines) +
        if logLevel == Level.Info then Deliver(transports, FormatMessage(timestamp, context, "INFO", message)) else []
    {
      InfoLoggedIff(logLevel);
      if ShouldLog(logLevel, "info") {
        var formatted := FormatMessage(timestamp, context, "INFO", message);
        Broadcast(formatted, out);
      }
    }

    /** `error(message)` at clock reading `timestamp`. */
    method Error(message: string, timestamp: string, out: Output)
      modifies out
      ensures out.lines == old(out.lines) + Deliver(transports, FormatMessage(timestamp, context, "ERROR", message))
    {
      ErrorAlwaysLogged(logLevel);
      if ShouldLog(logLevel, "error") {
        var formatted := FormatMessage(timestamp, context, "ERROR", message);
        Broadcast(formatted, out);
      }
    }
  }

  /** Console first, then the file: the two lines of the `AuthService` scenario. */
  lemma DeliverConsoleThenFile(path: string, line: string)
    ensures Deliver([Console, File(path)], line) == [line, "[File] Writing to " + path + ": " + line]
  {
    var ts := [Console, File(path)];
    assert ts[1..] == [File(path)] && ts[1..][1..] == [];
  }

  lemma AuthServiceLine(timestamp: string)
    ensures FormatMessage(timestamp, "AuthService", "ERROR", "Invalid credentials")
      == "[" + timestamp + "] [AuthService] [ERROR] Invalid credentials"
  {
    FormatAfterTimestamp(timestamp, "AuthService", "ERROR", "Invalid credentials");
    assert "] [" + "AuthService" == "] [AuthService";
    assert "] [AuthService" + "] [" == "] [AuthService] [";
    assert "] [AuthService] [" + "ERROR" == "] [AuthService] [ERROR";
    assert "] [AuthService] [ERROR" + "] " == "] [AuthService] [ERROR] ";
    assert "] [AuthService] [ERROR] " + "Invalid credentials" == "] [AuthService] [ERROR] Invalid credentials";
  }

  lemma FormatAfterTimestamp(timestamp: string, context: string, level: string, message: string)
    ensures FormatMessage(timestamp, context, level, message)
      == "[" + timestamp + ("] [" + context + "] [" + level + "] " + message)
  {
  }

  /** The `AuthService` usage: with the threshold at `error`, the info
      message writes nothing and the error message writes one console line
      and then one simulated file line. */
  method AuthServiceUsage(t1: string, t2: string, out: Output)
    modifies out
    ensures var line := "[" + t2 + "] [AuthService] [ERROR] Invalid credentials";
      out.lines == old(out.lines) + [line, "[File] Writing to logs.txt: " + line]
  {
    var logger := new Logger("AuthService");
    logger.AddTransport(Console);
    logger.AddTransport(File("logs.txt"));
    logger.SetLogLevel(Error);
    assert logger.transports == [Console, File("logs.txt")];
    logger.Info("User logged in", t1, out);
    logger.Error("Invalid credentials", t2, out);
    AuthServiceLine(t2);
    DeliverConsoleThenFile("logs.txt", FormatMessage(t2, "AuthService", "ERROR", "Invalid credentials"));
    assert "[File] Writing to " + "logs.txt" + ": " == "[File] Writing to logs.txt: ";
  }
}
