/** lifecycle_service.rs `daemon_plist` and lifecycle_util.rs `xml_escape`:
    the launchd definition says everything it was built from. */
module Plist {
  import opened Text

  // ---------- xml_escape ----------

  function ReplaceChar(s: string, c: char, text: string): string {
    if s == "" then "" else (if s[0] == c then text else [s[0]]) + ReplaceChar(s[1..], c, text)
  }

  function XmlEscape(value: string): string {
    ReplaceChar(ReplaceChar(ReplaceChar(value, '&', "&amp;"), '<', "&lt;"), '>', "&gt;")
  }

  // One pass, one character at a time.
  function Entity(c: char): (text: string)
    ensures text != "" && '<' !in text && '>' !in text
  {
    match c
    case '&' => "&amp;"
    case '<' => "&lt;"
    case '>' => "&gt;"
    case _ => [c]
  }

  function EscapeByCharacter(value: string): string {
    if value == "" then "" else Entity(value[0]) + EscapeByCharacter(value[1..])
  }

  function Unescape(text: string): string {
    if text == "" then ""
    else if "&amp;" <= text then "&" + Unescape(text[5..])
    else if "&lt;" <= text then "<" + Unescape(text[4..])
    else if "&gt;" <= text then ">" + Unescape(text[4..])
    else [text[0]] + Unescape(text[1..])
  }

  lemma {:induction false} ReplaceConcat(a: string, b: string, c: char, text: string)
    ensures ReplaceChar(a + b, c, text) == ReplaceChar(a, c, text) + ReplaceChar(b, c, text)
  {
    if a == "" {
      assert a + b == b;
    } else {
      assert (a + b)[1..] == a[1..] + b;
      ReplaceConcat(a[1..], b, c, text);
    }
  }

  lemma {:induction false} ReplaceAbsent(s: string, c: char, text: string)
    requires c !in s
    ensures ReplaceChar(s, c, text) == s
  {
    if s != "" {
      ReplaceAbsent(s[1..], c, text);
    }
  }

  lemma EscapeOfCharacter(c: char)
    ensures XmlEscape([c]) == Entity(c)
  {
    ReplaceOfCharacter(c, '&', "&amp;");
    ReplaceOfCharacter(c, '<', "&lt;");
    ReplaceOfCharacter(c, '>', "&gt;");
    ReplaceAbsent("&amp;", '<', "&lt;");
    ReplaceAbsent("&amp;", '>', "&gt;");
    ReplaceAbsent("&lt;", '>', "&gt;");
  }

  lemma ReplaceOfCharacter(c: char, d: char, text: string)
    ensures ReplaceChar([c], d, text) == if c == d then text else [c]
  {
    assert [c][1..] == "";
  }

  // The three passes, in their order, are the one-pass character map.
  lemma {:induction false} EscapeIsOnePass(value: string)
    ensures XmlEscape(value) == EscapeByCharacter(value)
  {
    if value != "" {
      var head, tail := [value[0]], value[1..];
      assert value == head + tail;
      ReplaceConcat(head, tail, '&', "&amp;");
      ReplaceConcat(ReplaceChar(head, '&', "&amp;"), ReplaceChar(tail, '&', "&amp;"), '<', "&lt;");
      ReplaceConcat(ReplaceChar(ReplaceChar(head, '&', "&amp;"), '<', "&lt;"),
                    ReplaceChar(ReplaceChar(tail, '&', "&amp;"), '<', "&lt;"), '>', "&gt;");
      EscapeOfCharacter(value[0]);
      EscapeIsOnePass(tail);
    }
  }

  // Reading an escaped character takes exactly its entity.
  lemma UnescapeEntity(c: char, rest: string)
    ensures Unescape(Entity(c) + rest) == [c] + Unescape(rest)
  {
    var text := Entity(c) + rest;
    assert text[|Entity(c)|..] == rest;
    if c != '&' && c != '<' && c != '>' {
      assert text[0] == c;
    } else {
      assert Entity(c) <= text && text[1] == Entity(c)[1];
    }
  }

  lemma {:induction false} OnePassHasLeftInverse(value: string)
    ensures Unescape(EscapeByCharacter(value)) == value
  {
    if value != "" {
      OnePassHasLeftInverse(value[1..]);
      UnescapeEntity(value[0], EscapeByCharacter(value[1..]));
      assert value == [value[0]] + value[1..];
    }
  }

  // Escaped text can be read back, and no markup character survives in it (section 2.4 of XML 1.0).
  lemma EscapeIsReversibleAndMarkupFree(value: string)
    ensures Unescape(XmlEscape(value)) == value
    ensures '<' !in XmlEscape(value) && '>' !in XmlEscape(value)
  {
    EscapeIsOnePass(value);
    OnePassHasLeftInverse(value);
    OnePassIsMarkupFree(value);
  }

  lemma {:induction false} OnePassIsMarkupFree(value: string)
    ensures '<' !in EscapeByCharacter(value) && '>' !in EscapeByCharacter(value)
  {
    if value != "" {
      OnePassIsMarkupFree(value[1..]);
    }
  }

  // ---------- daemon_plist ----------

  datatype Config = Config(
    serviceLabel: string,
    host: string,
    port: nat,
    daemonArguments: seq<string>,
    environment: seq<(string, string)>,
    logPath: string)

  const SEARCH_PATH := "/opt/homebrew/bin:/usr/local/bin:/usr/bin:/bin"

  function Beside(directory: string, name: string): string {
    if directory == "" || directory[|directory| - 1] == '/' then directory + name else directory + "/" + name
  }

  function Arguments(c: Config, runtimeDir: string): seq<string> {
    [Beside(runtimeDir, "sessionsd")] + c.daemonArguments
  }

  function Environment(c: Config, runtimeDir: string): seq<(string, string)> {
    [("PATH", SEARCH_PATH),
     ("SESSIONS_HOST", c.host),
     ("SESSIONS_PORT", Decimal(c.port)),
     ("SESSIONS_RUNNER", Beside(runtimeDir, "sessions-runner"))] + c.environment
  }

  const STRING_OPEN := "    <string>"
  const STRING_CLOSE := "</string>"
  const KEY_OPEN := "    <key>"
  const KEY_CLOSE := "</key>\n    <string>"

  function ArgumentRow(argument: string): string {
    STRING_OPEN + (XmlEscape(argument) + STRING_CLOSE)
  }

  function EnvironmentRow(entry: (string, string)): string {
    KEY_OPEN + (XmlEscape(entry.0) + (KEY_CLOSE + (XmlEscape(entry.1) + STRING_CLOSE)))
  }

  function ArgumentRows(arguments: seq<string>): seq<string> {
    seq(|arguments|, i requires 0 <= i < |arguments| => ArgumentRow(arguments[i]))
  }

  function EnvironmentRows(entries: seq<(string, string)>): seq<string> {
    seq(|entries|, i requires 0 <= i < |entries| => EnvironmentRow(entries[i]))
  }

  // The fixed text between the fields.
  datatype Frame = Frame(
    beforeLabel: string,
    beforeArguments: string,
    beforeEnvironment: string,
    beforeDirectory: string,
    beforeOutLog: string,
    beforeErrLog: string,
    tail: string)
  {
    // What the field boundaries rest on.
    predicate Delimits() {
      && beforeArguments != "" && beforeArguments[0] == '<'
      && |beforeEnvironment| > 3 && beforeEnvironment[0] == '\n' && beforeEnvironment[3] == '<'
      && |beforeDirectory| > 3 && beforeDirectory[0] == '\n' && beforeDirectory[3] == '<'
      && beforeOutLog != "" && beforeOutLog[0] == '<'
      && beforeErrLog != "" && beforeErrLog[0] == '<'
    }
  }

  const LIST_END := "\n  </"

  const BEFORE_LABEL := "<?xml version=\"1.0\" encoding=\"UTF-8\"?>\n<!DOCTYPE plist PUBLIC \"-//Apple//DTD PLIST 1.0//EN\" \"http://www.apple.com/DTDs/PropertyList-1.0.dtd\">\n<plist version=\"1.0\">\n<dict>\n  <key>Label</key>\n  <string>"
  const BEFORE_ARGUMENTS := STRING_CLOSE + "\n  <key>AssociatedBundleIdentifiers</key>\n  <array>\n    <string>tech.somewhere.sessions</string>\n  </array>\n  <key>ProgramArguments</key>\n  <array>\n"
  const BEFORE_ENVIRONMENT := LIST_END + "array>\n  <key>EnvironmentVariables</key>\n  <dict>\n"
  const BEFORE_DIRECTORY := LIST_END + "dict>\n  <key>WorkingDirectory</key>\n  <string>"
  const BEFORE_OUT_LOG := STRING_CLOSE + "\n  <key>RunAtLoad</key>\n  <true/>\n  <key>KeepAlive</key>\n  <true/>\n  <key>ThrottleInterval</key>\n  <integer>5</integer>\n  <key>StandardOutPath</key>\n  <string>"
  const BEFORE_ERR_LOG := STRING_CLOSE + "\n  <key>StandardErrorPath</key>\n  <string>"
  const TAIL := STRING_CLOSE + "\n</dict>\n</plist>\n"

  const LAUNCHD_FRAME := Frame(BEFORE_LABEL, BEFORE_ARGUMENTS, BEFORE_ENVIRONMENT, BEFORE_DIRECTORY,
                               BEFORE_OUT_LOG, BEFORE_ERR_LOG, TAIL)

  function AfterDirectory(f: Frame, directory: string, logPath: string): string {
    XmlEscape(directory) + (f.beforeOutLog + (XmlEscape(logPath) + (f.beforeErrLog + (XmlEscape(logPath) + f.tail))))
  }

  function EnvironmentPart(f: Frame, entries: seq<(string, string)>, directory: string, logPath: string): string {
    f.beforeEnvironment + (Join(EnvironmentRows(entries), "\n") + (
      f.beforeDirectory + AfterDirectory(f, directory, logPath)))
  }

  function AfterArguments(f: Frame, c: Config, runtimeDir: string): string {
    EnvironmentPart(f, Environment(c, runtimeDir), runtimeDir, c.logPath)
  }

  function ArgumentPart(f: Frame, arguments: seq<string>, rest: string): string {
    f.beforeArguments + (Join(ArgumentRows(arguments), "\n") + rest)
  }

  function AfterLabel(f: Frame, c: Config, runtimeDir: string): string {
    ArgumentPart(f, Arguments(c, runtimeDir), AfterArguments(f, c, runtimeDir))
  }

  function Render(f: Frame, c: Config, runtimeDir: string): string {
    f.beforeLabel + (XmlEscape(c.serviceLabel) + AfterLabel(f, c, runtimeDir))
  }

  function DaemonPlist(c: Config, runtimeDir: string): string { Render(LAUNCHD_FRAME, c, runtimeDir) }

  // ---------- injectivity ----------

  // Equal documents with an equal head have equal rests.
  lemma SameHead(head: string, a: string, b: string)
    requires head + a == head + b
    ensures a == b
  {
    assert a == (head + a)[|head|..];
    assert b == (head + b)[|head|..];
  }

  // An escaped field ends where the next markup begins.
  lemma EscapedFieldsAgree(a: string, restA: string, b: string, restB: string)
    requires restA != "" && restA[0] == '<' && restB != "" && restB[0] == '<'
    requires XmlEscape(a) + restA == XmlEscape(b) + restB
    ensures a == b && restA == restB
  {
    EscapeIsReversibleAndMarkupFree(a);
    EscapeIsReversibleAndMarkupFree(b);
    FieldsAgree(XmlEscape(a), restA, XmlEscape(b), restB, '<');
  }

  // The rows from the second on, each after its line feed, then the text that follows the list.
  function RowsAfter(rows: seq<string>, rest: string): string {
    if rows == [] then rest else "\n" + (rows[0] + RowsAfter(rows[1..], rest))
  }

  lemma {:induction false} JoinedRows(rows: seq<string>, rest: string)
    requires rows != []
    ensures Join(rows, "\n") + rest == rows[0] + RowsAfter(rows[1..], rest)
  {
    if |rows| > 1 {
      JoinedRows(rows[1..], rest);
      assert Join(rows, "\n") + rest == rows[0] + ("\n" + (Join(rows[1..], "\n") + rest));
    }
  }

  // A list ends at a line whose third character opens a tag; its rows are indented further.
  ghost predicate EndsList(rest: string) { |rest| > 3 && rest[0] == '\n' && rest[3] == '<' }

  lemma {:induction false} ArgumentsAgree(a: seq<string>, restA: string, b: seq<string>, restB: string)
    requires EndsList(restA) && EndsList(restB)
    requires RowsAfter(ArgumentRows(a), restA) == RowsAfter(ArgumentRows(b), restB)
    ensures a == b && restA == restB
    decreases |a|
  {
    var ra, rb := ArgumentRows(a), ArgumentRows(b);
    if a != [] { assert RowsAfter(ra, restA)[3] == ra[0][2] == ' '; }
    if b != [] { assert RowsAfter(rb, restB)[3] == rb[0][2] == ' '; }
    if a != [] && b != [] {
      assert ra[1..] == ArgumentRows(a[1..]) && rb[1..] == ArgumentRows(b[1..]);
      ArgumentRowAgrees(a[0], RowsAfter(ra[1..], restA), b[0], RowsAfter(rb[1..], restB));
      ArgumentsAgree(a[1..], restA, b[1..], restB);
      assert a == [a[0]] + a[1..] && b == [b[0]] + b[1..];
    }
  }

  lemma ArgumentRowAgrees(a: string, restA: string, b: string, restB: string)
    requires "\n" + (ArgumentRow(a) + restA) == "\n" + (ArgumentRow(b) + restB)
    ensures a == b && restA == restB
  {
    SameHead("\n", ArgumentRow(a) + restA, ArgumentRow(b) + restB);
    assert ArgumentRow(a) + restA == STRING_OPEN + (XmlEscape(a) + (STRING_CLOSE + restA));
    assert ArgumentRow(b) + restB == STRING_OPEN + (XmlEscape(b) + (STRING_CLOSE + restB));
    SameHead(STRING_OPEN, XmlEscape(a) + (STRING_CLOSE + restA), XmlEscape(b) + (STRING_CLOSE + restB));
    EscapedFieldsAgree(a, STRING_CLOSE + restA, b, STRING_CLOSE + restB);
    SameHead(STRING_CLOSE, restA, restB);
  }

  lemma EnvironmentRowsStart(a: seq<(string, string)>, rest: string)
    requires a != []
    ensures |RowsAfter(EnvironmentRows(a), rest)| > 3 && RowsAfter(EnvironmentRows(a), rest)[3] == ' '
    ensures EnvironmentRows(a)[1..] == EnvironmentRows(a[1..])
  {
    var rows := EnvironmentRows(a);
    assert RowsAfter(rows, rest)[3] == rows[0][2] == ' ';
  }

  lemma {:induction false} EnvironmentsAgree(a: seq<(string, string)>, restA: string, b: seq<(string, string)>, restB: string)
    requires EndsList(restA) && EndsList(restB)
    requires RowsAfter(EnvironmentRows(a), restA) == RowsAfter(EnvironmentRows(b), restB)
    ensures a == b && restA == restB
    decreases |a|
  {
    var ra, rb := EnvironmentRows(a), EnvironmentRows(b);
    if a != [] { EnvironmentRowsStart(a, restA); }
    if b != [] { EnvironmentRowsStart(b, restB); }
    if a != [] && b != [] {
      EnvironmentRowAgrees(a[0], RowsAfter(ra[1..], restA), b[0], RowsAfter(rb[1..], restB));
      EnvironmentsAgree(a[1..], restA, b[1..], restB);
      assert a == [a[0]] + a[1..] && b == [b[0]] + b[1..];
    }
  }

  lemma EnvironmentRowBefore(a: (string, string), rest: string)
    ensures EnvironmentRow(a) + rest == KEY_OPEN + (XmlEscape(a.0) + (KEY_CLOSE + (XmlEscape(a.1) + (STRING_CLOSE + rest))))
  {
  }

  lemma EnvironmentRowAgrees(a: (string, string), restA: string, b: (string, string), restB: string)
    requires "\n" + (EnvironmentRow(a) + restA) == "\n" + (EnvironmentRow(b) + restB)
    ensures a == b && restA == restB
  {
    SameHead("\n", EnvironmentRow(a) + restA, EnvironmentRow(b) + restB);
    var valueA := XmlEscape(a.1) + (STRING_CLOSE + restA);
    var valueB := XmlEscape(b.1) + (STRING_CLOSE + restB);
    EnvironmentRowBefore(a, restA);
    EnvironmentRowBefore(b, restB);
    SameHead(KEY_OPEN, XmlEscape(a.0) + (KEY_CLOSE + valueA), XmlEscape(b.0) + (KEY_CLOSE + valueB));
    EscapedFieldsAgree(a.0, KEY_CLOSE + valueA, b.0, KEY_CLOSE + valueB);
    SameHead(KEY_CLOSE, valueA, valueB);
    EscapedFieldsAgree(a.1, STRING_CLOSE + restA, b.1, STRING_CLOSE + restB);
    SameHead(STRING_CLOSE, restA, restB);
  }

  lemma TailAgrees(f: Frame, dirA: string, logA: string, dirB: string, logB: string)
    requires f.Delimits()
    requires AfterDirectory(f, dirA, logA) == AfterDirectory(f, dirB, logB)
    ensures dirA == dirB && logA == logB
  {
    var errA := f.beforeErrLog + (XmlEscape(logA) + f.tail);
    var errB := f.beforeErrLog + (XmlEscape(logB) + f.tail);
    EscapedFieldsAgree(dirA, f.beforeOutLog + (XmlEscape(logA) + errA), dirB, f.beforeOutLog + (XmlEscape(logB) + errB));
    SameHead(f.beforeOutLog, XmlEscape(logA) + errA, XmlEscape(logB) + errB);
    EscapedFieldsAgree(logA, errA, logB, errB);
  }

  // Joined lists between equal texts are equal lists.
  lemma ArgumentListsAgree(a: seq<string>, restA: string, b: seq<string>, restB: string)
    requires a != [] && b != [] && EndsList(restA) && EndsList(restB)
    requires Join(ArgumentRows(a), "\n") + restA == Join(ArgumentRows(b), "\n") + restB
    ensures a == b && restA == restB
  {
    var ra, rb := ArgumentRows(a), ArgumentRows(b);
    JoinedRows(ra, restA);
    JoinedRows(rb, restB);
    assert ra == [ra[0]] + ra[1..] && rb == [rb[0]] + rb[1..];
    assert RowsAfter(ra, restA) == RowsAfter(rb, restB);
    ArgumentsAgree(a, restA, b, restB);
  }

  lemma EnvironmentListsAgree(a: seq<(string, string)>, restA: string, b: seq<(string, string)>, restB: string)
    requires a != [] && b != [] && EndsList(restA) && EndsList(restB)
    requires Join(EnvironmentRows(a), "\n") + restA == Join(EnvironmentRows(b), "\n") + restB
    ensures a == b && restA == restB
  {
    var ra, rb := EnvironmentRows(a), EnvironmentRows(b);
    JoinedRows(ra, restA);
    JoinedRows(rb, restB);
    assert RowsAfter(ra, restA) == RowsAfter(rb, restB);
    EnvironmentsAgree(a, restA, b, restB);
  }

  lemma EnvironmentPartsAgree(f: Frame, a: seq<(string, string)>, dirA: string, logA: string,
                              b: seq<(string, string)>, dirB: string, logB: string)
    requires f.Delimits() && a != [] && b != []
    requires EnvironmentPart(f, a, dirA, logA) == EnvironmentPart(f, b, dirB, logB)
    ensures a == b && dirA == dirB && logA == logB
  {
    var envA := f.beforeDirectory + AfterDirectory(f, dirA, logA);
    var envB := f.beforeDirectory + AfterDirectory(f, dirB, logB);
    SameHead(f.beforeEnvironment, Join(EnvironmentRows(a), "\n") + envA, Join(EnvironmentRows(b), "\n") + envB);
    EnvironmentListsAgree(a, envA, b, envB);
    SameHead(f.beforeDirectory, AfterDirectory(f, dirA, logA), AfterDirectory(f, dirB, logB));
    TailAgrees(f, dirA, logA, dirB, logB);
  }

  lemma ArgumentPartsAgree(f: Frame, a: seq<string>, restA: string, b: seq<string>, restB: string)
    requires f.Delimits() && a != [] && b != [] && EndsList(restA) && EndsList(restB)
    requires ArgumentPart(f, a, restA) == ArgumentPart(f, b, restB)
    ensures a == b && restA == restB
  {
    SameHead(f.beforeArguments, Join(ArgumentRows(a), "\n") + restA, Join(ArgumentRows(b), "\n") + restB);
    ArgumentListsAgree(a, restA, b, restB);
  }

  lemma EnvironmentPartEndsArguments(f: Frame, entries: seq<(string, string)>, directory: string, logPath: string)
    requires f.Delimits()
    ensures EndsList(EnvironmentPart(f, entries, directory, logPath))
  {
  }

  lemma RenderIsInjective(f: Frame, a: Config, dirA: string, b: Config, dirB: string)
    requires f.Delimits()
    requires Render(f, a, dirA) == Render(f, b, dirB)
    ensures a == b && dirA == dirB
  {
    var labelA, labelB := AfterLabel(f, a, dirA), AfterLabel(f, b, dirB);
    SameHead(f.beforeLabel, XmlEscape(a.serviceLabel) + labelA, XmlEscape(b.serviceLabel) + labelB);
    EscapedFieldsAgree(a.serviceLabel, labelA, b.serviceLabel, labelB);
    EnvironmentPartEndsArguments(f, Environment(a, dirA), dirA, a.logPath);
    EnvironmentPartEndsArguments(f, Environment(b, dirB), dirB, b.logPath);
    ArgumentPartsAgree(f, Arguments(a, dirA), AfterArguments(f, a, dirA), Arguments(b, dirB), AfterArguments(f, b, dirB));
    EnvironmentPartsAgree(f, Environment(a, dirA), dirA, a.logPath, Environment(b, dirB), dirB, b.logPath);
    FieldsOfLists(a, b, dirA);
  }

  lemma FieldsOfLists(a: Config, b: Config, dir: string)
    requires a.serviceLabel == b.serviceLabel && a.logPath == b.logPath
    requires Arguments(a, dir) == Arguments(b, dir) && Environment(a, dir) == Environment(b, dir)
    ensures a == b
  {
    assert a.daemonArguments == Arguments(a, dir)[1..];
    assert b.daemonArguments == Arguments(b, dir)[1..];
    assert a.environment == Environment(a, dir)[4..];
    assert b.environment == Environment(b, dir)[4..];
    assert Environment(a, dir)[1] == Environment(b, dir)[1];
    assert Environment(a, dir)[2] == Environment(b, dir)[2];
    DecimalInjective(a.port, b.port);
  }

  // The byte comparison that reports a service as current compares the whole definition.
  lemma DaemonPlistIsInjective(a: Config, dirA: string, b: Config, dirB: string)
    ensures DaemonPlist(a, dirA) == DaemonPlist(b, dirB) <==> a == b && dirA == dirB
  {
    FrameDelimits();
    if DaemonPlist(a, dirA) == DaemonPlist(b, dirB) {
      RenderIsInjective(LAUNCHD_FRAME, a, dirA, b, dirB);
    }
  }

  lemma FrameDelimits()
    ensures LAUNCHD_FRAME.Delimits()
  {
    assert STRING_CLOSE[0] == '<';
    assert LIST_END[0] == '\n' && LIST_END[3] == '<';
  }
}
