/** Rendering role and job documentation (`zubbi/doc.py`). reStructuredText
    goes through Sphinx, with two directives of zubbi's own that render
    nothing but log their arguments; the platforms and the reusable flag are
    read back out of Sphinx's status log. Markdown goes through a markdown
    renderer, and any other file is not rendered. Sphinx itself and the
    markdown renderer are parameters. */
module Doc {
  import opened Wrappers
  import opened Text

  /** The two directives zubbi registers with Sphinx. */
  datatype DirectiveKind = SupportedOs | Reusable

  function DirectiveName(k: DirectiveKind): (r: string)
    ensures !Contains(r, ':') && !Contains(r, '\n')
  {
    match k
    case SupportedOs => "supported_os"
    case Reusable => "reusable"
  }

  /** The values that switch the reusable flag on. */
  const ReusableValues: seq<string> := ["true", "yes"]

  /** `ZubbiDirective.run`: with an argument, one message per
      comma-separated piece, `<directive name>: <piece>`; without one,
      nothing. */
  function DirectiveRun(k: DirectiveKind, argument: Option<string>): (r: seq<string>)
    ensures argument.None? ==> r == []
    ensures argument.Some? ==> |r| == |Split(argument.value, ',')| >= 1
  {
    match argument
    case None => []
    case Some(a) => Messages(DirectiveName(k), Split(a, ','))
  }

  function Messages(name: string, pieces: seq<string>): (r: seq<string>)
    ensures |r| == |pieces|
    ensures forall i :: 0 <= i < |pieces| ==> r[i] == name + ": " + pieces[i]
  {
    seq(|pieces|, i requires 0 <= i < |pieces| => name + ": " + pieces[i])
  }

  /** Something the Sphinx build does that reaches the status log: a use of
      one of zubbi's directives, or a status message of Sphinx's own. */
  datatype Event = Directive(kind: DirectiveKind, argument: Option<string>) | Status(message: string)

  /** A message as the status log receives it: followed by a newline. */
  function LogLine(message: string): string {
    message + "\n"
  }

  function LogLines(messages: seq<string>): (r: seq<string>)
    ensures |r| == |messages|
    ensures forall i :: 0 <= i < |messages| ==> r[i] == LogLine(messages[i])
  {
    seq(|messages|, i requires 0 <= i < |messages| => LogLine(messages[i]))
  }

  /** Pieces of text written one after the other. */
  function Concat(parts: seq<string>): string
    decreases |parts|
  {
    if |parts| == 0 then "" else parts[0] + Concat(parts[1..])
  }

  /** What one event writes to the status log. */
  function EventText(e: Event): string {
    match e
    case Directive(k, arg) => Concat(LogLines(DirectiveRun(k, arg)))
    case Status(m) => LogLine(m)
  }

  /** The text of the status log. */
  function StatusText(events: seq<Event>): string
    decreases |events|
  {
    if |events| == 0 then "" else EventText(events[0]) + StatusText(events[1..])
  }

  /** A line as `readlines` yields it: not empty, and a newline at most at
      its end. */
  predicate IsLine(l: string) {
    |l| > 0 && forall j :: 0 <= j < |l| - 1 ==> l[j] != '\n'
  }

  /** `readlines` on a text stream: the text cut after every newline; only
      the last line may lack one. */
  function SplitLines(text: string): (r: seq<string>)
    ensures Concat(r) == text
    ensures forall i :: 0 <= i < |r| ==> IsLine(r[i])
    ensures forall i :: 0 <= i < |r| - 1 ==> |r[i]| > 0 && r[i][|r[i]| - 1] == '\n'
    decreases |text|
  {
    if |text| == 0 then []
    else
      var (a, found, rest) := PartitionChar(text, '\n');
      if !found then [a]
      else
        var line := a + "\n";
        assert IsLine(line) by {
          forall j | 0 <= j < |line| - 1 ensures line[j] != '\n' { assert line[j] == a[j]; }
        }
        var more := SplitLines(rest);
        assert ([line] + more)[1..] == more;
        [line] + more
  }

  /** The status log, line by line (`status_log.readlines()`). */
  function StatusLog(events: seq<Event>): seq<string> {
    SplitLines(StatusText(events))
  }

  /** Messages without a newline of their own come back out of the log one
      line each. */
  lemma {:induction false} SplitLogLines(messages: seq<string>)
    requires forall i :: 0 <= i < |messages| ==> !Contains(messages[i], '\n')
    ensures SplitLines(Concat(LogLines(messages))) == LogLines(messages)
    decreases |messages|
  {
    if |messages| > 0 {
      var lines := LogLines(messages);
      var tail := Concat(lines[1..]);
      assert lines[1..] == LogLines(messages[1..]);
      assert Concat(lines) == messages[0] + ['\n'] + tail;
      PartitionCharRecovers(messages[0], '\n', tail);
      SplitLogLines(messages[1..]);
    }
  }

  /** The text before the first `:` of a line (all of it without one). */
  function LinePrefix(line: string): string {
    PartitionChar(line, ':').0
  }

  /** The text after the first `:` of a line (nothing without one). */
  function LineValue(line: string): string {
    PartitionChar(line, ':').2
  }

  predicate IsLineOf(k: DirectiveKind, line: string) {
    LinePrefix(line) == DirectiveName(k)
  }

  /** The platform a `supported_os` value names. */
  function Platform(value: string): string {
    Lower(Strip(value))
  }

  /** The flag a `reusable` value sets. */
  predicate ReusableFlag(value: string) {
    Lower(Strip(value)) in ReusableValues
  }

  /** What a line adds to the platforms. */
  function PickPlatform(line: string): seq<string> {
    if IsLineOf(SupportedOs, line) then [Platform(LineValue(line))] else []
  }

  /** What a line does to the reusable flag; a `supported_os` line is
      tested first. */
  function NextReusable(reusable: bool, line: string): bool {
    if IsLineOf(SupportedOs, line) then reusable
    else if IsLineOf(Reusable, line) then ReusableFlag(LineValue(line))
    else reusable
  }

  /** The shape of the extraction loop: each line may add platforms and may
      set the flag. */
  function ExtractWith(lines: seq<string>, platforms: seq<string>, reusable: bool,
                       pick: string -> seq<string>, next: (bool, string) -> bool): (seq<string>, bool)
    decreases |lines|
  {
    if |lines| == 0 then (platforms, reusable)
    else ExtractWith(lines[1..], platforms + pick(lines[0]), next(reusable, lines[0]), pick, next)
  }

  /** The extraction loop of `render_sphinx`, from a given start. */
  function ExtractDirectives(lines: seq<string>, platforms: seq<string>, reusable: bool): (seq<string>, bool) {
    ExtractWith(lines, platforms, reusable, PickPlatform, NextReusable)
  }

  // Reference definitions of what the loop extracts.

  function CollectWith(lines: seq<string>, pick: string -> seq<string>): seq<string>
    decreases |lines|
  {
    if |lines| == 0 then [] else pick(lines[0]) + CollectWith(lines[1..], pick)
  }

  /** The platform of every `supported_os` line, in order. */
  function Platforms(lines: seq<string>): seq<string> {
    CollectWith(lines, PickPlatform)
  }

  lemma {:induction false} ExtractWithCollects(lines: seq<string>, platforms: seq<string>, reusable: bool,
                                               pick: string -> seq<string>, next: (bool, string) -> bool)
    ensures ExtractWith(lines, platforms, reusable, pick, next).0 == platforms + CollectWith(lines, pick)
    decreases |lines|
  {
    if |lines| == 0 {
      assert platforms + [] == platforms;
    } else {
      var here := pick(lines[0]);
      ExtractWithCollects(lines[1..], platforms + here, next(reusable, lines[0]), pick, next);
      assert (platforms + here) + CollectWith(lines[1..], pick) == platforms + (here + CollectWith(lines[1..], pick));
    }
  }

  /** Each piece, stripped and lower-cased. */
  function PlatformsOf(pieces: seq<string>): (r: seq<string>)
    ensures |r| == |pieces|
    ensures forall i :: 0 <= i < |pieces| ==> r[i] == Platform(pieces[i])
    decreases |pieces|
  {
    if |pieces| == 0 then []
    else
      var rest := PlatformsOf(pieces[1..]);
      assert forall i :: 1 <= i < |pieces| ==> pieces[1..][i - 1] == pieces[i];
      [Platform(pieces[0])] + rest
  }

  /** The loop collects every platform, in order. */
  lemma ExtractPlatforms(lines: seq<string>, platforms: seq<string>, reusable: bool)
    ensures ExtractDirectives(lines, platforms, reusable).0 == platforms + Platforms(lines)
  {
    ExtractWithCollects(lines, platforms, reusable, PickPlatform, NextReusable);
  }

  /** In the loop's shape: lines that leave the flag alone keep it. */
  lemma {:induction false} ExtractWithKeeps(lines: seq<string>, platforms: seq<string>, reusable: bool,
                                            pick: string -> seq<string>, next: (bool, string) -> bool)
    requires forall j, b :: 0 <= j < |lines| ==> next(b, lines[j]) == b
    ensures ExtractWith(lines, platforms, reusable, pick, next).1 == reusable
    decreases |lines|
  {
    if |lines| > 0 {
      assert next(reusable, lines[0]) == reusable;
      assert forall j :: 0 <= j < |lines| - 1 ==> lines[1..][j] == lines[j + 1];
      ExtractWithKeeps(lines[1..], platforms + pick(lines[0]), reusable, pick, next);
    }
  }

  /** In the loop's shape: the last line that sets the flag decides it. */
  lemma {:induction false} ExtractWithLast(lines: seq<string>, platforms: seq<string>, reusable: bool,
                                           pick: string -> seq<string>, next: (bool, string) -> bool, i: int, v: bool)
    requires 0 <= i < |lines| && forall b :: next(b, lines[i]) == v
    requires forall j, b :: i < j < |lines| ==> next(b, lines[j]) == b
    ensures ExtractWith(lines, platforms, reusable, pick, next).1 == v
    decreases |lines|
  {
    var rest := lines[1..];
    var p := platforms + pick(lines[0]);
    var r := next(reusable, lines[0]);
    assert forall j :: 0 <= j < |rest| ==> rest[j] == lines[j + 1];
    if i == 0 {
      ExtractWithKeeps(rest, p, r, pick, next);
    } else {
      ExtractWithLast(rest, p, r, pick, next, i - 1, v);
    }
  }

  /** Without a `reusable` line the flag keeps its start value. */
  lemma ExtractReusableUnset(lines: seq<string>, platforms: seq<string>, reusable: bool)
    requires forall i :: 0 <= i < |lines| ==> !IsLineOf(Reusable, lines[i])
    ensures ExtractDirectives(lines, platforms, reusable).1 == reusable
  {
    ExtractWithKeeps(lines, platforms, reusable, PickPlatform, NextReusable);
  }

  /** The last `reusable` line decides the flag. */
  lemma ExtractReusableLast(lines: seq<string>, platforms: seq<string>, reusable: bool, i: int)
    requires 0 <= i < |lines| && IsLineOf(Reusable, lines[i])
    requires forall j :: i < j < |lines| ==> !IsLineOf(Reusable, lines[j])
    ensures ExtractDirectives(lines, platforms, reusable).1 == ReusableFlag(LineValue(lines[i]))
  {
    assert !IsLineOf(SupportedOs, lines[i]) by {
      assert DirectiveName(SupportedOs) != DirectiveName(Reusable);
    }
    ExtractWithLast(lines, platforms, reusable, PickPlatform, NextReusable, i, ReusableFlag(LineValue(lines[i])));
  }

  /** A logged directive message reads back as its name and its value. */
  lemma DirectiveLineRoundTrip(k: DirectiveKind, v: string)
    ensures LinePrefix(LogLine(DirectiveName(k) + ": " + v)) == DirectiveName(k)
    ensures LineValue(LogLine(DirectiveName(k) + ": " + v)) == " " + v + "\n"
  {
    var name := DirectiveName(k);
    var rest := " " + v + "\n";
    assert LogLine(name + ": " + v) == name + [':'] + rest;
    PartitionCharRecovers(name, ':', rest);
  }

  /** One logged directive message, as the extraction loop sees it. */
  lemma DirectiveLineReadBack(k: DirectiveKind, v: string)
    ensures IsLineOf(SupportedOs, LogLine(DirectiveName(k) + ": " + v)) <==> k == SupportedOs
    ensures IsLineOf(Reusable, LogLine(DirectiveName(k) + ": " + v)) <==> k == Reusable
    ensures Platform(LineValue(LogLine(DirectiveName(k) + ": " + v))) == Platform(v)
    ensures ReusableFlag(LineValue(LogLine(DirectiveName(k) + ": " + v))) == ReusableFlag(v)
  {
    DirectiveLineRoundTrip(k, v);
    StripLogValue(v);
    assert DirectiveName(SupportedOs) != DirectiveName(Reusable);
  }

  /** The platforms of the lines a directive logs: each piece of a
      `supported_os` argument, stripped and lower-cased. */
  lemma {:induction false} PlatformsOfMessages(k: DirectiveKind, pieces: seq<string>)
    ensures Platforms(LogLines(Messages(DirectiveName(k), pieces))) == if k == SupportedOs then PlatformsOf(pieces) else []
    decreases |pieces|
  {
    var name := DirectiveName(k);
    var lines := LogLines(Messages(name, pieces));
    if |pieces| > 0 {
      var line := LogLine(name + ": " + pieces[0]);
      assert lines[0] == line;
      assert lines[1..] == LogLines(Messages(name, pieces[1..]));
      assert Platforms(lines) == PickPlatform(line) + Platforms(lines[1..]);
      DirectiveLineReadBack(k, pieces[0]);
      PlatformsOfMessages(k, pieces[1..]);
      if k == SupportedOs {
        assert PickPlatform(line) == [Platform(pieces[0])];
      } else {
        assert PickPlatform(line) == [];
      }
    }
  }

  /** `supported_os: Linux, Windows` yields the platforms `linux` and
      `windows`: the pieces of an argument without a newline, stripped and
      lower-cased. */
  lemma SupportedOsRoundTrip(arg: string)
    requires !Contains(arg, '\n')
    ensures var pieces := Split(arg, ',');
            ExtractDirectives(StatusLog([Directive(SupportedOs, Some(arg))]), [], false).0 == PlatformsOf(pieces)
  {
    var lines := LogLines(Messages(DirectiveName(SupportedOs), Split(arg, ',')));
    StatusLogOfDirective(SupportedOs, arg);
    ExtractPlatforms(lines, [], false);
    PlatformsOfMessages(SupportedOs, Split(arg, ','));
  }

  /** The flag the lines of a `reusable` directive set: its last piece's. */
  lemma ReusableOfMessages(pieces: seq<string>)
    requires |pieces| > 0
    ensures ExtractDirectives(LogLines(Messages(DirectiveName(Reusable), pieces)), [], false).1
            == ReusableFlag(pieces[|pieces| - 1])
  {
    var lines := LogLines(Messages(DirectiveName(Reusable), pieces));
    var n := |pieces| - 1;
    DirectiveLineReadBack(Reusable, pieces[n]);
    assert lines[n] == LogLine(DirectiveName(Reusable) + ": " + pieces[n]);
    ExtractReusableLast(lines, [], false, n);
  }

  /** A status message spanning two lines is read back as two lines; the
      second is taken for a directive's line when it starts like one. */
  lemma StatusMessageSpansLines(a: string, b: string)
    requires !Contains(a, '\n') && !Contains(b, '\n')
    ensures StatusLog([Status(a + "\n" + b)]) == [LogLine(a), LogLine(b)]
  {
    assert StatusText([Status(a + "\n" + b)]) == Concat(LogLines([a, b])) by {
      assert StatusText([Status(a + "\n" + b)]) == LogLine(a + "\n" + b) + "";
      var ls := LogLines([a, b]);
      assert ls[0] == LogLine(a) && ls[1..] == [LogLine(b)];
      assert [LogLine(b)][1..] == [];
      assert Concat([LogLine(b)]) == LogLine(b) + "";
      assert Concat(ls) == LogLine(a) + LogLine(b);
      assert LogLine(a + "\n" + b) == LogLine(a) + LogLine(b);
    }
    SplitLogLines([a, b]);
  }

  /** A `supported_os` argument whose second piece starts on a new line:
      the log cuts that piece's message in two, so the piece names an empty
      platform and the text after the newline is no platform at all
      (`Linux,\nWindows` gives `linux` and an empty platform). */
  lemma SupportedOsArgumentOverLines(a: string, b: string)
    requires !Contains(a, ',') && !Contains(a, '\n')
    requires !Contains(b, ',') && !Contains(b, '\n') && !Contains(b, ':')
    ensures ExtractDirectives(StatusLog([Directive(SupportedOs, Some(a + ",\n" + b))]), [], false).0 == [Platform(a), ""]
  {
    var name := DirectiveName(SupportedOs);
    var lines := LogLines([name + ": " + a, name + ": ", b]);
    ArgumentOverLinesLog(a, b);
    ExtractPlatforms(lines, [], false);
    PlatformsOfThree(lines);
    DirectiveLineReadBack(SupportedOs, a);
    DirectiveLineReadBack(SupportedOs, "");
    assert name + ": " + "" == name + ": ";
    NoDirectiveLine(b);
  }

  /** The platforms of three lines. */
  lemma PlatformsOfThree(lines: seq<string>)
    requires |lines| == 3
    ensures Platforms(lines) == PickPlatform(lines[0]) + PickPlatform(lines[1]) + PickPlatform(lines[2])
  {
    var l1 := lines[1..];
    var l2 := l1[1..];
    assert l2[1..] == [];
    assert CollectWith(l2, PickPlatform) == PickPlatform(l2[0]) + CollectWith(l2[1..], PickPlatform);
    assert CollectWith(l1, PickPlatform) == PickPlatform(l1[0]) + CollectWith(l2, PickPlatform);
    assert CollectWith(lines, PickPlatform) == PickPlatform(lines[0]) + CollectWith(l1, PickPlatform);
  }

  /** A logged line without a `:` is no directive's line. */
  lemma NoDirectiveLine(b: string)
    requires !Contains(b, '\n') && !Contains(b, ':')
    ensures PickPlatform(LogLine(b)) == []
  {
    var last := LogLine(b);
    assert !Contains(last, ':') by {
      forall i | 0 <= i < |last| ensures last[i] != ':' {
        if i < |b| { assert last[i] == b[i]; }
      }
    }
    assert LinePrefix(last) == last;
    assert last[|last| - 1] != DirectiveName(SupportedOs)[|DirectiveName(SupportedOs)| - 1];
  }

  /** The log of such an argument: the first piece's line, the second
      piece's line cut at its newline, and the rest of that piece. */
  lemma ArgumentOverLinesLog(a: string, b: string)
    requires !Contains(a, ',') && !Contains(a, '\n')
    requires !Contains(b, ',') && !Contains(b, '\n')
    ensures var name := DirectiveName(SupportedOs);
            StatusLog([Directive(SupportedOs, Some(a + ",\n" + b))]) == LogLines([name + ": " + a, name + ": ", b])
  {
    var name := DirectiveName(SupportedOs);
    var ms := [name + ": " + a, name + ": ", b];
    ArgumentOverLinesText(a, b);
    MessagesWithoutNewline(name, [a, ""]);
    assert Messages(name, [a, ""]) == [name + ": " + a, name + ": " + ""];
    assert name + ": " + "" == name + ": ";
    SplitLogLines(ms);
  }

  /** The text such an argument writes to the status log. */
  lemma ArgumentOverLinesText(a: string, b: string)
    requires !Contains(a, ',')
    requires !Contains(b, ',')
    ensures var name := DirectiveName(SupportedOs);
            StatusText([Directive(SupportedOs, Some(a + ",\n" + b))]) == Concat(LogLines([name + ": " + a, name + ": ", b]))
  {
    var name := DirectiveName(SupportedOs);
    var second := "\n" + b;
    ArgumentPieces(a, b);
    var lines := LogLines([name + ": " + a, name + ": ", b]);
    var own := LogLines(Messages(name, [a, second]));
    assert own == [LogLine(name + ": " + a), LogLine(name + ": " + second)];
    assert own[1..][1..] == [];
    assert Concat(own[1..]) == own[1] + Concat(own[1..][1..]);
    assert lines[1..][1..][1..] == [];
    assert Concat(lines[1..][1..]) == lines[2] + Concat(lines[1..][1..][1..]);
    assert Concat(lines[1..]) == lines[1] + Concat(lines[1..][1..]);
    assert LogLine(name + ": " + second) == LogLine(name + ": ") + LogLine(b);
    var events := [Directive(SupportedOs, Some(a + ",\n" + b))];
    assert events[1..] == [];
    assert EventText(events[0]) == Concat(own);
    assert StatusText(events) == EventText(events[0]) + StatusText(events[1..]);
  }

  /** Such an argument has two pieces, the second starting with the newline. */
  lemma ArgumentPieces(a: string, b: string)
    requires !Contains(a, ',') && !Contains(b, ',')
    ensures Split(a + ",\n" + b, ',') == [a, "\n" + b]
  {
    var second := "\n" + b;
    assert !Contains(second, ',') by {
      forall i | 0 <= i < |second| ensures second[i] != ',' {
        if i > 0 { assert second[i] == b[i - 1]; }
      }
    }
    assert a + [','] + second == a + ",\n" + b;
    SplitAtSeparator(a, ',', second);
    SplitWithoutSeparator(second, ',');
  }

  /** A status message of Sphinx's own whose second line looks like a
      `supported_os` line adds a platform, just as the directive would. */
  lemma StatusMessageAddsPlatform(a: string, v: string)
    requires !Contains(a, '\n') && !Contains(a, ':') && !Contains(v, '\n')
    ensures ExtractDirectives(StatusLog([Status(a + "\n" + DirectiveName(SupportedOs) + ": " + v)]), [], false).0 == [Platform(v)]
  {
    var name := DirectiveName(SupportedOs);
    MessagesWithoutNewline(name, [v]);
    assert Messages(name, [v])[0] == name + ": " + v;
    assert a + "\n" + name + ": " + v == a + "\n" + (name + ": " + v);
    StatusMessageSpansLines(a, name + ": " + v);
    var lines := [LogLine(a), LogLine(name + ": " + v)];
    ExtractPlatforms(lines, [], false);
    NoDirectiveLine(a);
    DirectiveLineReadBack(SupportedOs, v);
    assert lines[1..][1..] == [];
    assert CollectWith(lines[1..], PickPlatform) == PickPlatform(lines[1]) + CollectWith(lines[1..][1..], PickPlatform);
    assert CollectWith(lines, PickPlatform) == PickPlatform(lines[0]) + CollectWith(lines[1..], PickPlatform);
  }

  /** Messages made of a name and pieces without newlines have none. */
  lemma MessagesWithoutNewline(name: string, pieces: seq<string>)
    requires !Contains(name, '\n')
    requires forall i :: 0 <= i < |pieces| ==> !Contains(pieces[i], '\n')
    ensures forall i :: 0 <= i < |pieces| ==> !Contains(Messages(name, pieces)[i], '\n')
  {
    forall i | 0 <= i < |pieces| ensures !Contains(Messages(name, pieces)[i], '\n') {
      var m := name + ": " + pieces[i];
      forall j | 0 <= j < |m| ensures m[j] != '\n' {
        if j >= |name| + 2 { assert m[j] == pieces[i][j - |name| - 2]; }
        else if j < |name| { assert m[j] == name[j]; }
      }
    }
  }

  /** The status log of a single use of a directive whose argument has no
      newline is what the directive logs, one line per piece. */
  lemma StatusLogOfDirective(k: DirectiveKind, arg: string)
    requires !Contains(arg, '\n')
    ensures StatusLog([Directive(k, Some(arg))]) == LogLines(Messages(DirectiveName(k), Split(arg, ',')))
  {
    var messages := Messages(DirectiveName(k), Split(arg, ','));
    var text := Concat(LogLines(messages));
    assert StatusText([Directive(k, Some(arg))]) == text + StatusText([]);
    assert text + "" == text;
    SplitKeepsAbsent(arg, ',', '\n');
    MessagesWithoutNewline(DirectiveName(k), Split(arg, ','));
    SplitLogLines(messages);
  }

  /** Of a `reusable` argument with several pieces and no newline, the
      last piece decides. */
  lemma ReusableLastPieceWins(arg: string)
    requires !Contains(arg, '\n')
    ensures var pieces := Split(arg, ',');
            ExtractDirectives(StatusLog([Directive(Reusable, Some(arg))]), [], false).1
            == ReusableFlag(pieces[|pieces| - 1])
  {
    StatusLogOfDirective(Reusable, arg);
    ReusableOfMessages(Split(arg, ','));
  }

  /** The position of the last `reusable` line, if there is one. */
  function LastReusable(lines: seq<string>): (r: Option<nat>)
    ensures r.Some? ==> r.value < |lines| && IsLineOf(Reusable, lines[r.value])
    ensures r.Some? ==> forall j :: r.value < j < |lines| ==> !IsLineOf(Reusable, lines[j])
    ensures r.None? ==> forall j :: 0 <= j < |lines| ==> !IsLineOf(Reusable, lines[j])
    decreases |lines|
  {
    if |lines| == 0 then None
    else if IsLineOf(Reusable, lines[|lines| - 1]) then Some(|lines| - 1)
    else
      var r := LastReusable(lines[..|lines| - 1]);
      assert forall j :: 0 <= j < |lines| - 1 ==> lines[..|lines| - 1][j] == lines[j];
      r
  }

  /** What went wrong while rendering reStructuredText. */
  datatype RenderError = SphinxBuildError | LookupError

  /** What the Sphinx build of one document does: the events reaching the
      status log, the final status code and the body of the JSON output; or
      a `LookupError` raised from inside the build. */
  datatype SphinxRun = SphinxRun(events: seq<Event>, statuscode: int, body: string) | SphinxLookupError

  /** A rendered document: the Sphinx result carries the extracted
      platforms and reusable flag, the markdown result only the HTML. */
  datatype Doc = SphinxDoc(html: string, platforms: seq<string>, reusable: bool) | MarkdownDoc(html: string)

  /** `render_sphinx`: a nonzero status code is a build error; otherwise the
      body comes with what the directives logged. */
  function RenderSphinx(content: string, sphinx: string -> SphinxRun): (r: Result<Doc, RenderError>)
    ensures r.Success? <==> sphinx(content).SphinxRun? && sphinx(content).statuscode == 0
    ensures r.Failure? ==> (r.error == LookupError <==> sphinx(content).SphinxLookupError?)
    ensures r.Success? ==> r.value.SphinxDoc? && r.value.html == sphinx(content).body
    ensures r.Success? ==> r.value.platforms == Platforms(StatusLog(sphinx(content).events))
    ensures r.Success? ==> r.value.reusable == ExtractDirectives(StatusLog(sphinx(content).events), [], false).1
  {
    match sphinx(content)
    case SphinxLookupError => Failure(LookupError)
    case SphinxRun(events, statuscode, body) =>
      if statuscode != 0 then Failure(SphinxBuildError)
      else
        var lines := StatusLog(events);
        ExtractPlatforms(lines, [], false);
        var (platforms, reusable) := ExtractDirectives(lines, [], false);
        Success(SphinxDoc(body, platforms, reusable))
  }

  /** The flag `render_sphinx` returns is the value of the last `reusable`
      line of the status log, and `False` when there is none. */
  lemma RenderedReusable(content: string, sphinx: string -> SphinxRun)
    requires RenderSphinx(content, sphinx).Success?
    ensures var lines := StatusLog(sphinx(content).events);
            var last := LastReusable(lines);
            RenderSphinx(content, sphinx).value.reusable == (last.Some? && ReusableFlag(LineValue(lines[last.value])))
  {
    var lines := StatusLog(sphinx(content).events);
    var last := LastReusable(lines);
    if last.Some? {
      ExtractReusableLast(lines, [], false, last.value);
    } else {
      ExtractReusableUnset(lines, [], false);
    }
  }

  /** `render_markdown`. */
  function RenderMarkdown(content: string, markdown: string -> string): (d: Doc)
    ensures d.MarkdownDoc? && d.html == markdown(content)
  {
    MarkdownDoc(markdown(content))
  }

  /** `render_file`: the lower-cased extension picks the renderer, and a
      failed Sphinx build, of either kind, leaves the file unrendered. */
  function RenderFile(path: string, content: string, sphinx: string -> SphinxRun, markdown: string -> string): (r: Option<Doc>)
    ensures r.Some? && r.value.SphinxDoc? <==> EndsWith(Lower(path), ".rst") && RenderSphinx(content, sphinx).Success?
    ensures r.Some? && r.value.MarkdownDoc? <==> !EndsWith(Lower(path), ".rst") && EndsWith(Lower(path), ".md")
    ensures r.Some? && r.value.MarkdownDoc? ==> r.value.html == markdown(content)
    ensures !EndsWith(Lower(path), ".rst") && !EndsWith(Lower(path), ".md") ==> r.None?
    ensures EndsWith(Lower(path), ".rst") ==> r == RenderSphinx(content, sphinx).ToOption()
  {
    if EndsWith(Lower(path), ".rst") then RenderSphinx(content, sphinx).ToOption()
    else if EndsWith(Lower(path), ".md") then Some(RenderMarkdown(content, markdown))
    else None
  }

  /** A reStructuredText file that builds is returned with every platform
      its `supported_os` lines name, in order, and with the flag of its last
      `reusable` line. */
  lemma RenderedFileCarriesDirectives(path: string, content: string, sphinx: string -> SphinxRun, markdown: string -> string)
    requires EndsWith(Lower(path), ".rst") && RenderSphinx(content, sphinx).Success?
    ensures var d := RenderFile(path, content, sphinx, markdown);
            var lines := StatusLog(sphinx(content).events);
            var last := LastReusable(lines);
            && d.Some? && d.value.SphinxDoc?
            && d.value.platforms == Platforms(lines)
            && d.value.reusable == (last.Some? && ReusableFlag(LineValue(lines[last.value])))
  {
    RenderedReusable(content, sphinx);
  }

  /** `README.RST` goes to Sphinx: the extension is compared lower-cased. */
  lemma UpperCaseExtensionRendered(path: string, content: string, sphinx: string -> SphinxRun, markdown: string -> string)
    requires path == "README.RST"
    requires sphinx(content).SphinxRun? && sphinx(content).statuscode == 0
    ensures RenderFile(path, content, sphinx, markdown).Some?
    ensures RenderFile(path, content, sphinx, markdown).value.SphinxDoc?
  {
    assert Lower(path)[|path| - 4..] == ".rst";
  }
}
