/** windows_supervisor.rs: the logon command line and its parser. */
module Supervisor {
  import opened Wrappers
  import opened Text
  import opened WindowsRunner

  const SUPERVISE_MARKER := "\" --supervise --port "
  const RUNNER_MARKER := " --runner \""

  datatype Definition = Definition(daemon: string, port: nat, runner: string)

  datatype ParseError =
    | NoQuotedDaemon
    | UnsupportedDaemonCommand
    | UnsupportedRunnerCommand
    | NoQuotedRunner
    | InvalidPath
    | InvalidPort
    | PrivilegedPort

  // The text around the three fields, whatever the spelling of the port.
  function Form(daemon: string, portText: string, runner: string): string {
    "\"" + (daemon + SUPERVISE_MARKER + (portText + RUNNER_MARKER + (runner + "\"")))
  }

  function CommandLine(d: Definition): string {
    Form(d.daemon, Decimal(d.port), d.runner)
  }

  // u16::from_str: an optional '+', then digits accumulated with overflow checks.
  function ParseU16(s: string): Option<nat> {
    var digits := if s != "" && s[0] == '+' then s[1..] else s;
    if digits == "" then None else Accumulate(digits, 0)
  }

  function Accumulate(digits: string, acc: nat): Option<nat>
    decreases |digits|
  {
    if digits == "" then Some(acc)
    else if !IsDigit(digits[0]) then None
    else
      var next := acc * 10 + (digits[0] as int - ZERO);
      if acc * 10 > U16_MAX || next > U16_MAX then None else Accumulate(digits[1..], next)
  }

  function Parse(value: string): Result<Definition, ParseError> {
    if value == "" || value[0] != '"' then Err(NoQuotedDaemon) else
    match SplitOnce(value[1..], SUPERVISE_MARKER)
    case None => Err(UnsupportedDaemonCommand)
    case Some((daemon, rest)) =>
      match SplitOnce(rest, RUNNER_MARKER)
      case None => Err(UnsupportedRunnerCommand)
      case Some((portText, tail)) =>
        if tail == "" || tail[|tail| - 1] != '"' then Err(NoQuotedRunner) else
        var runner := tail[..|tail| - 1];
        if daemon == "" || runner == "" || '"' in daemon || '"' in runner then Err(InvalidPath) else
        match ParseU16(portText)
        case None => Err(InvalidPort)
        case Some(port) =>
          if port < 1024 then Err(PrivilegedPort) else Ok(Definition(daemon, port, runner))
  }

  // What a definition must be for a command line to carry it.
  predicate Printable(d: Definition) {
    d.daemon != "" && d.runner != "" && '"' !in d.daemon && '"' !in d.runner && 1024 <= d.port <= U16_MAX
  }

  ghost predicate Spells(portText: string, port: nat) { ParseU16(portText) == Some(port) }

  // ---------- the port field ----------

  // The value of digits read after a prefix worth acc.
  function Extend(acc: nat, digits: string): nat
    requires AllDigits(digits)
    decreases |digits|
  {
    if digits == "" then acc else Extend(acc * 10 + (digits[0] as int - ZERO), digits[1..])
  }

  lemma {:induction false} ExtendIsAtLeast(acc: nat, digits: string)
    requires AllDigits(digits)
    ensures Extend(acc, digits) >= acc
    decreases |digits|
  {
    if digits != "" {
      ExtendIsAtLeast(acc * 10 + (digits[0] as int - ZERO), digits[1..]);
    }
  }

  lemma {:induction false} ExtendAppend(acc: nat, digits: string, last: char)
    requires AllDigits(digits) && IsDigit(last)
    ensures Extend(acc, digits + [last]) == Extend(acc, digits) * 10 + (last as int - ZERO)
    decreases |digits|
  {
    if digits == "" {
      assert ([last])[1..] == "";
    } else {
      assert (digits + [last])[1..] == digits[1..] + [last];
      ExtendAppend(acc * 10 + (digits[0] as int - ZERO), digits[1..], last);
    }
  }

  lemma {:induction false} ExtendIsDigitsValue(digits: string)
    requires AllDigits(digits)
    ensures Extend(0, digits) == DigitsValue(digits)
    decreases |digits|
  {
    if digits != "" {
      var front := digits[..|digits| - 1];
      ExtendIsDigitsValue(front);
      ExtendAppend(0, front, digits[|digits| - 1]);
      assert digits == front + [digits[|digits| - 1]];
    }
  }

  // Step-by-step overflow checks accept exactly the digit strings whose whole value fits.
  lemma {:induction false} AccumulateChecksTheWholeValue(digits: string, acc: nat)
    requires acc <= U16_MAX
    ensures AllDigits(digits) && Extend(acc, digits) <= U16_MAX ==> Accumulate(digits, acc) == Some(Extend(acc, digits))
    ensures !AllDigits(digits) || Extend(acc, digits) > U16_MAX ==> Accumulate(digits, acc).None?
    decreases |digits|
  {
    if digits != "" {
      assert AllDigits(digits) <==> IsDigit(digits[0]) && AllDigits(digits[1..]);
      if IsDigit(digits[0]) {
        var next := acc * 10 + (digits[0] as int - ZERO);
        if next <= U16_MAX {
          AccumulateChecksTheWholeValue(digits[1..], next);
        } else if AllDigits(digits) {
          ExtendIsAtLeast(next, digits[1..]);
        }
      }
    }
  }

  // The accepted spellings of a port: an optional plus sign, then digits of that value, leading zeros allowed.
  lemma ParseU16Exactly(s: string, port: nat)
    ensures ParseU16(s) == Some(port) <==>
            var digits := if s != "" && s[0] == '+' then s[1..] else s;
            digits != "" && AllDigits(digits) && DigitsValue(digits) == port && port <= U16_MAX
  {
    var digits := if s != "" && s[0] == '+' then s[1..] else s;
    AccumulateChecksTheWholeValue(digits, 0);
    if AllDigits(digits) {
      ExtendIsDigitsValue(digits);
    }
  }

  lemma DecimalSpells(port: nat)
    requires port <= U16_MAX
    ensures Spells(Decimal(port), port)
  {
    DecimalValue(port);
    ParseU16Exactly(Decimal(port), port);
    assert IsDigit(Decimal(port)[0]);
  }

  // ---------- the grammar ----------

  lemma FormParses(d: Definition, portText: string)
    requires Printable(d) && Spells(portText, d.port)
    ensures Parse(Form(d.daemon, portText, d.runner)) == Ok(d)
  {
    var tail := d.runner + "\"";
    var rest := portText + RUNNER_MARKER + tail;
    var value := Form(d.daemon, portText, d.runner);
    assert value[1..] == d.daemon + SUPERVISE_MARKER + rest;
    SplitOnceAtFirst(d.daemon, SUPERVISE_MARKER, rest);
    ParseU16Exactly(portText, d.port);
    assert ' ' !in portText;
    SplitOnceAtFirst(portText, RUNNER_MARKER, tail);
    assert tail[..|tail| - 1] == d.runner;
  }

  // The parser accepts exactly the printed form of a printable definition, up to the spelling of the port.
  lemma ParseAcceptsExactlyPrintedForms(value: string, d: Definition)
    ensures Parse(value) == Ok(d) <==>
            Printable(d) && exists portText :: Spells(portText, d.port) && value == Form(d.daemon, portText, d.runner)
  {
    if Parse(value) == Ok(d) {
      var first := SplitOnce(value[1..], SUPERVISE_MARKER).value;
      var second := SplitOnce(first.1, RUNNER_MARKER).value;
      assert second.1 == d.runner + "\"";
      ParseU16Exactly(second.0, d.port);
      assert value == "\"" + value[1..];
      assert Spells(second.0, d.port) && value == Form(d.daemon, second.0, d.runner);
    }
    forall portText | Printable(d) && Spells(portText, d.port) && value == Form(d.daemon, portText, d.runner)
      ensures Parse(value) == Ok(d)
    {
      FormParses(d, portText);
    }
  }

  // parse undoes command_line on exactly the printable definitions.
  lemma RoundTrip(d: Definition)
    ensures Parse(CommandLine(d)) == Ok(d) <==> Printable(d)
  {
    if Printable(d) {
      DecimalSpells(d.port);
      FormParses(d, Decimal(d.port));
    }
    ParseAcceptsExactlyPrintedForms(CommandLine(d), d);
  }

  // Printing what was parsed is a normalisation: it parses to the same definition.
  lemma PrintingNormalises(value: string)
    requires Parse(value).Ok?
    ensures Parse(CommandLine(Parse(value).value)) == Parse(value)
  {
    var d := Parse(value).value;
    ParseAcceptsExactlyPrintedForms(value, d);
    RoundTrip(d);
  }

  // Two definitions with one command line are one definition.
  lemma CommandLineInjective(a: Definition, b: Definition)
    requires Printable(a) && Printable(b) && CommandLine(a) == CommandLine(b)
    ensures a == b
  {
    RoundTrip(a);
    RoundTrip(b);
  }

  // ---------- validate_supervisor_definition ----------

  function Components(path: string): seq<string> { Split(path, '\\') }

  predicate Inside(path: string, root: string) { Components(root) <= Components(path) }

  function Parent(path: string): seq<string> {
    var c := Components(path);
    c[..|c| - 1]
  }

  predicate ValidDefinition(d: Definition, root: string, isFile: string -> bool) {
    && Inside(d.daemon, root) && isFile(d.daemon)
    && Inside(d.runner, root) && isFile(d.runner)
    && (d.runner == StableRunnerPath(root) || Parent(d.daemon) == Parent(d.runner))
  }

  lemma ComponentsOfChild(directory: string, name: string)
    requires '\\' !in name
    ensures Components(directory + "\\" + name) == Components(directory) + [name]
  {
    JoinUndoesSplit(directory, '\\');
    var parts := Split(directory, '\\') + [name];
    JoinSnoc(Split(directory, '\\'), name, "\\");
    SplitUndoesJoin(parts, '\\');
  }

  lemma {:induction false} JoinSnoc(parts: seq<string>, last: string, glue: string)
    requires parts != []
    ensures Join(parts + [last], glue) == Join(parts, glue) + glue + last
  {
    if |parts| == 1 {
      assert (parts + [last])[1..] == [last];
    } else {
      assert (parts + [last])[1..] == parts[1..] + [last];
      JoinSnoc(parts[1..], last, glue);
    }
  }

  // A daemon and a runner from two versioned directories are never accepted together; a versioned pair is
  // accepted exactly when it comes from one directory and both files are there.
  lemma AcceptedPairsComeFromOneRuntime(root: string, daemonVersion: string, runnerVersion: string, port: nat, isFile: string -> bool)
    requires '\\' !in daemonVersion && '\\' !in runnerVersion
    ensures
      var daemon := root + "\\" + daemonVersion + "\\" + "sessionsd.exe";
      var runner := root + "\\" + runnerVersion + "\\" + "sessions-runner.exe";
      ValidDefinition(Definition(daemon, port, runner), root, isFile) <==>
      daemonVersion == runnerVersion && isFile(daemon) && isFile(runner)
  {
    var daemon := root + "\\" + daemonVersion + "\\" + "sessionsd.exe";
    var runner := root + "\\" + runnerVersion + "\\" + "sessions-runner.exe";
    ComponentsOfChild(root, daemonVersion);
    ComponentsOfChild(root, runnerVersion);
    ComponentsOfChild(root + "\\" + daemonVersion, "sessionsd.exe");
    ComponentsOfChild(root + "\\" + runnerVersion, "sessions-runner.exe");
    ComponentsOfChild(root, "sessions-runner.exe");
    assert |Components(runner)| == |Components(StableRunnerPath(root))| + 1;
    assert Parent(daemon) == Components(root) + [daemonVersion];
    assert Parent(runner) == Components(root) + [runnerVersion];
    assert Parent(daemon)[|Components(root)|] == daemonVersion;
    assert Parent(runner)[|Components(root)|] == runnerVersion;
  }

  // A versioned daemon with the pinned runner, which is what the installer registers, is accepted exactly when both
  // files are there, whatever version the daemon is.
  lemma PinnedRunnerIsAccepted(root: string, version: string, port: nat, isFile: string -> bool)
    requires '\\' !in version
    ensures
      var daemon := root + "\\" + version + "\\" + "sessionsd.exe";
      ValidDefinition(Definition(daemon, port, StableRunnerPath(root)), root, isFile) <==>
      isFile(daemon) && isFile(StableRunnerPath(root))
  {
    var daemon := root + "\\" + version + "\\" + "sessionsd.exe";
    ComponentsOfChild(root, version);
    ComponentsOfChild(root + "\\" + version, "sessionsd.exe");
    ComponentsOfChild(root, "sessions-runner.exe");
    assert Components(daemon) == Components(root) + [version] + ["sessionsd.exe"];
    assert Components(StableRunnerPath(root)) == Components(root) + ["sessions-runner.exe"];
  }
}
