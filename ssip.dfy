/**
 * The SSIP (Speech Synthesis Interface Protocol) shim: a line-driven text
 * protocol. A session greets, then answers SET, SPEAK, QUIT and anything
 * else one line at a time; SPEAK switches to a data mode that collects raw
 * lines until a line that is "." once trimmed, and speaks the collected text.
 *
 * The socket is replaced by the sequence of chunks `read_line` would return
 * (each ends in "\n" except possibly the last; end of input is EOF), and the
 * writes and the engine's `speak` calls by a log of events in the order the
 * source performs them.
 */
module Ssip {
  import opened Text

  datatype Event = Reply(text: string) | Speak(text: string)

  const Greeting := [Reply("299-SpeechD-NG SSIP Shim\r\n"), Reply("299 OK READY\r\n")]
  const SetReply := "200 OK\r\n"
  const DataReply := "202 OK RECEIVING DATA\r\n"
  const QueuedReply := "200 OK MESSAGE QUEUED\r\n"
  const QuitReply := "231 HAPPY HACKING\r\n"
  const IgnoredReply := "200 OK IGNORED\r\n"

  /** What a command-mode line asks for. */
  datatype Command = Blank | Set | SpeakData | Quit | Unknown

  /** The command an upper-cased command word names. */
  function CommandOf(cmd: string): Command {
    if cmd == "SET" then Set
    else if cmd == "SPEAK" then SpeakData
    else if cmd == "QUIT" then Quit
    else Unknown
  }

  /** A blank line, or the command named by the first word, matched after upper-casing. */
  function Classify(line: string): (r: Command)
    ensures r == Blank <==> Trim(line) == []
    ensures r == Set ==> ToUpper(FirstWord(Trim(line))) == "SET"
    ensures r == SpeakData ==> ToUpper(FirstWord(Trim(line))) == "SPEAK"
    ensures r == Quit ==> ToUpper(FirstWord(Trim(line))) == "QUIT"
  {
    var cmdLine := Trim(line);
    if cmdLine == [] then Blank else CommandOf(ToUpper(FirstWord(cmdLine)))
  }

  /** A line that is not blank once trimmed has a first word, which is the command word. */
  lemma NonBlankHasWord(s: string)
    requires Trim(s) != []
    ensures SplitWhitespace(Trim(s)) != [] && SplitWhitespace(Trim(s))[0] == FirstWord(Trim(s))
  {
    TrimIsCore(s);
    SplitWhitespaceEmptyIffBlank(Trim(s));
    FirstWordIsFirstSplit(Trim(s));
  }

  /** In data mode, the line that ends the data. */
  predicate IsTerminator(line: string) {
    Trim(line) == "."
  }

  /** A line as read, with what it means in command mode and whether it ends data mode. */
  datatype Line = Line(raw: string, command: Command, terminator: bool)

  function Scan(line: string): Line {
    Line(line, Classify(line), IsTerminator(line))
  }

  function ScanAll(input: seq<string>): (r: seq<Line>)
    ensures |r| == |input|
  {
    seq(|input|, i requires 0 <= i < |input| => Scan(input[i]))
  }

  function Raws(ls: seq<Line>): (r: seq<string>)
    ensures |r| == |ls| && forall i :: 0 <= i < |ls| ==> r[i] == ls[i].raw
  {
    seq(|ls|, i requires 0 <= i < |ls| => ls[i].raw)
  }

  /** Scanning keeps each line's raw text. */
  lemma RawsOfScan(input: seq<string>, a: nat, b: nat)
    requires a <= b <= |input|
    ensures Raws(ScanAll(input)[a..b]) == input[a..b]
  {
    var r := Raws(ScanAll(input)[a..b]);
    forall i | 0 <= i < b - a ensures r[i] == input[a + i] {
      assert ScanAll(input)[a..b][i] == ScanAll(input)[a + i];
    }
  }

  /** How many data lines follow SPEAK: up to the first terminator, or to EOF. */
  function DataLength(lines: seq<Line>): (n: nat)
    ensures n <= |lines|
    ensures forall k :: 0 <= k < n ==> !lines[k].terminator
    ensures n < |lines| ==> lines[n].terminator
  {
    if lines == [] || lines[0].terminator then 0
    else
      var m := DataLength(lines[1..]);
      assert forall k :: 1 <= k < m + 1 ==> lines[k] == lines[1..][k - 1];
      1 + m
  }

  /** The lines left after a SPEAK's data: past the terminator, or none at EOF. */
  function AfterData(data: seq<Line>): seq<Line> {
    var n := DataLength(data);
    if n < |data| then data[n + 1..] else []
  }

  /** The events of a session after the greeting, for the lines still to be read. */
  function Commands(lines: seq<Line>): (r: seq<Event>)
    ensures |r| <= 3 * |lines|
    ensures r == [] <==> forall i :: 0 <= i < |lines| ==> lines[i].command == Blank
    decreases |lines|
  {
    if lines == [] then []
    else
      match lines[0].command
      case Blank => Commands(lines[1..])
      case Set => [Reply(SetReply)] + Commands(lines[1..])
      case SpeakData =>
        var data := lines[1..];
        [Reply(DataReply), Speak(Concat(Raws(data[..DataLength(data)]))), Reply(QueuedReply)] + Commands(AfterData(data))
      case Quit => [Reply(QuitReply)]
      case Unknown => [Reply(IgnoredReply)] + Commands(lines[1..])
  }

  /** The whole event log of a connection fed `input`. */
  function Session(input: seq<string>): (r: seq<Event>)
    ensures |r| >= 2 && r[..2] == Greeting
  {
    Greeting + Commands(ScanAll(input))
  }

  /** A terminator at `i`, with none before it, ends the data there. */
  lemma DataLengthAt(lines: seq<Line>, i: nat)
    requires i < |lines| && lines[i].terminator
    requires forall k :: 0 <= k < i ==> !lines[k].terminator
    ensures DataLength(lines) == i
  {
  }

  /**
   * The data mode of SPEAK, from line `start`: reads up to and including the
   * first terminator, or to EOF. `stop` is where the data ends; the buffer is
   * the raw data lines concatenated.
   */
  method ReadData(input: seq<string>, start: nat) returns (buffer: string, pos: nat, ghost stop: nat)
    requires start <= |input|
    ensures start <= stop <= pos <= |input|
    ensures forall k :: start <= k < stop ==> !IsTerminator(input[k])
    ensures stop < pos ==> pos == stop + 1 && IsTerminator(input[stop])
    ensures stop == pos ==> pos == |input|
    ensures buffer == Concat(input[start..stop])
  {
    buffer := "";
    pos := start;
    var done := false;
    while !done && pos < |input|
      invariant start <= pos <= |input|
      invariant forall k :: start <= k < pos - (if done then 1 else 0) ==> !IsTerminator(input[k])
      invariant !done ==> buffer == Concat(input[start..pos])
      invariant done ==> start < pos && IsTerminator(input[pos - 1]) && buffer == Concat(input[start..pos - 1])
      decreases |input| - pos, !done
    {
      var dataLine := input[pos];
      pos := pos + 1;
      if Trim(dataLine) == "." {
        done := true;
      } else {
        buffer := buffer + dataLine;
        assert input[start..pos] == input[start..pos - 1] + [dataLine];
        ConcatSnoc(input[start..pos - 1], dataLine);
      }
    }
    stop := if done then pos - 1 else pos;
  }

  /** What `ReadData` read is the data `Commands` speaks, and reading resumes where `Commands` does. */
  lemma ReadDataMatchesSpec(input: seq<string>, start: nat, stop: nat, pos: nat)
    requires start <= stop <= pos <= |input|
    requires forall k :: start <= k < stop ==> !IsTerminator(input[k])
    requires stop < pos ==> pos == stop + 1 && IsTerminator(input[stop])
    requires stop == pos ==> pos == |input|
    ensures var data := ScanAll(input)[start..];
      && Raws(data[..DataLength(data)]) == input[start..stop]
      && AfterData(data) == ScanAll(input)[pos..]
  {
    var scanned := ScanAll(input);
    var data := scanned[start..];
    DataLengthOfRead(input, start, stop, pos);
    assert Raws(data[..stop - start]) == input[start..stop] by {
      RawsOfScan(input, start, stop);
      assert data[..stop - start] == scanned[start..stop];
    }
    if stop < pos {
      assert data[stop - start + 1..] == scanned[pos..];
    }
  }

  /** The data `ReadData` read, up to `stop`, is exactly what comes before the first terminator. */
  lemma DataLengthOfRead(input: seq<string>, start: nat, stop: nat, pos: nat)
    requires start <= stop <= pos <= |input|
    requires forall k :: start <= k < stop ==> !IsTerminator(input[k])
    requires stop < pos ==> pos == stop + 1 && IsTerminator(input[stop])
    requires stop == pos ==> pos == |input|
    ensures DataLength(ScanAll(input)[start..]) == stop - start
  {
    var scanned := ScanAll(input);
    var data := scanned[start..];
    forall k | 0 <= k < stop - start ensures !data[k].terminator {
      assert data[k] == scanned[start + k];
    }
    if stop < pos {
      assert data[stop - start] == scanned[stop];
      DataLengthAt(data, stop - start);
    } else {
      DataLengthAll(data);
    }
  }

  /** A SPEAK line at `start - 1` whose data `ReadData` read up to `stop`, resuming at `pos`. */
  lemma SpeakStep(input: seq<string>, start: nat, stop: nat, pos: nat)
    requires 0 < start <= stop <= pos <= |input|
    requires Classify(input[start - 1]) == SpeakData
    requires forall k :: start <= k < stop ==> !IsTerminator(input[k])
    requires stop < pos ==> pos == stop + 1 && IsTerminator(input[stop])
    requires stop == pos ==> pos == |input|
    ensures Commands(ScanAll(input)[start - 1..]) ==
      [Reply(DataReply), Speak(Concat(input[start..stop])), Reply(QueuedReply)] + Commands(ScanAll(input)[pos..])
  {
    var here := ScanAll(input)[start - 1..];
    assert here[0] == ScanAll(input)[start - 1];
    assert here[1..] == ScanAll(input)[start..];
    ReadDataMatchesSpec(input, start, stop, pos);
  }

  /** Data with no terminator runs to EOF. */
  lemma DataLengthAll(lines: seq<Line>)
    requires forall k :: 0 <= k < |lines| ==> !lines[k].terminator
    ensures DataLength(lines) == |lines|
  {
  }

  /**
   * One pass of the read loop of `handle_connection`, reading line `pos`:
   * the events it produces, where reading resumes, and whether the session
   * ended (QUIT).
   */
  method HandleLine(input: seq<string>, pos: nat) returns (out: seq<Event>, next: nat, quit: bool)
    requires pos < |input|
    ensures pos < next <= |input|
    ensures quit ==> Commands(ScanAll(input)[pos..]) == out
    ensures !quit ==> Commands(ScanAll(input)[pos..]) == out + Commands(ScanAll(input)[next..])
  {
    ghost var here := ScanAll(input)[pos..];
    var line := input[pos];
    next := pos + 1;
    quit := false;
    assert here[1..] == ScanAll(input)[next..];
    assert here[0] == Scan(line);
    var cmdLine := Trim(line);
    if cmdLine == [] {
      return [], next, false;
    }
    var cmdParts := SplitWhitespace(cmdLine);
    NonBlankHasWord(line);
    var cmd := ToUpper(cmdParts[0]);
    assert here[0].command == CommandOf(cmd);
    if cmd == "SET" {
      out := [Reply(SetReply)];
    } else if cmd == "SPEAK" {
      var buffer;
      ghost var stop;
      buffer, next, stop := ReadData(input, next);
      SpeakStep(input, pos + 1, stop, next);
      out := [Reply(DataReply), Speak(buffer), Reply(QueuedReply)];
    } else if cmd == "QUIT" {
      out := [Reply(QuitReply)];
      quit := true;
    } else {
      out := [Reply(IgnoredReply)];
    }
  }

  /** `handle_connection`: greet, then handle lines until QUIT or EOF. */
  method HandleConnection(input: seq<string>) returns (events: seq<Event>)
    ensures events == Session(input)
  {
    var served := ServeLines(input);
    events := Greeting + served;
  }

  /** The read loop of `handle_connection`, after the greeting. */
  method ServeLines(input: seq<string>) returns (events: seq<Event>)
    ensures events == Commands(ScanAll(input))
  {
    ghost var scanned := ScanAll(input);
    events := [];
    var pos := 0;
    assert scanned[0..] == scanned;
    while pos < |input|
      invariant pos <= |input|
      invariant events + Commands(scanned[pos..]) == Commands(scanned)
      decreases |input| - pos
    {
      var out, next, quit := HandleLine(input, pos);
      if quit {
        return events + out;
      }
      Regroup(events, out, Commands(scanned[next..]));
      events := events + out;
      pos := next;
    }
    assert scanned[pos..] == [];
  }

  // ------------------------------------------------------------------ properties

  /** Blank and whitespace-only lines draw no response. */
  lemma BlankLineIsSilent(line: string, rest: seq<Line>)
    requires AllWhite(line)
    ensures Commands([Scan(line)] + rest) == Commands(rest)
  {
    TrimEmptyIffAllWhite(line);
    assert ([Scan(line)] + rest)[1..] == rest;
  }

  /** QUIT answers once and ends the session: nothing after it is read. */
  lemma QuitEndsSession(quit: Line, rest: seq<Line>)
    requires quit.command == Quit
    ensures Commands([quit] + rest) == [Reply(QuitReply)]
  {
  }

  /** The command is the first word `split_whitespace` finds on the trimmed line, upper-cased. */
  lemma CommandIsFirstWord(line: string)
    requires Trim(line) != []
    ensures SplitWhitespace(Trim(line)) != []
    ensures Classify(line) == CommandOf(ToUpper(SplitWhitespace(Trim(line))[0]))
  {
    NonBlankHasWord(line);
  }

  /** The command word is matched without regard to letter case. */
  lemma CommandIgnoresCase(word: string)
    ensures CommandOf(ToUpper(ToLower(word))) == CommandOf(ToUpper(word))
  {
    UpperForgetsCase(word);
  }

  /**
   * A SPEAK followed by data lines and a "." line: the data is acknowledged,
   * spoken once as the concatenation of the raw lines, then queued; the
   * session goes on after the terminator.
   */
  lemma {:induction false} SpeakSpeaksDataOnce(speak: Line, data: seq<Line>, dot: Line, rest: seq<Line>)
    requires speak.command == SpeakData
    requires forall k :: 0 <= k < |data| ==> !data[k].terminator
    requires dot.terminator
    ensures Commands([speak] + data + [dot] + rest) ==
      [Reply(DataReply), Speak(Concat(Raws(data))), Reply(QueuedReply)] + Commands(rest)
  {
    var lines := [speak] + data + [dot] + rest;
    var tail := lines[1..];
    assert tail == data + [dot] + rest;
    assert forall k :: 0 <= k < |data| ==> tail[k] == data[k];
    DataLengthAt(tail, |data|);
    assert tail[..|data|] == data;
    assert AfterData(tail) == rest;
  }

  /** A SPEAK cut off by EOF still speaks what it collected. */
  lemma {:induction false} SpeakAtEof(speak: Line, data: seq<Line>)
    requires speak.command == SpeakData
    requires forall k :: 0 <= k < |data| ==> !data[k].terminator
    ensures Commands([speak] + data) == [Reply(DataReply), Speak(Concat(Raws(data))), Reply(QueuedReply)]
  {
    var lines := [speak] + data;
    assert lines[1..] == data;
    assert DataLength(data) == |data|;
    assert data[..|data|] == data;
    assert AfterData(data) == [];
  }

  /** Replies in a session are always one of the protocol's fixed answers. */
  predicate KnownReply(e: Event) {
    e.Reply? ==> e.text == SetReply || e.text == DataReply || e.text == QueuedReply || e.text == QuitReply || e.text == IgnoredReply
  }

  lemma {:induction false} RepliesAreKnown(lines: seq<Line>)
    ensures forall e :: e in Commands(lines) ==> KnownReply(e)
    decreases |lines|
  {
    if lines != [] {
      match lines[0].command
      case Blank => RepliesAreKnown(lines[1..]);
      case Set => RepliesAreKnown(lines[1..]);
      case SpeakData => RepliesAreKnown(AfterData(lines[1..]));
      case Quit =>
      case Unknown => RepliesAreKnown(lines[1..]);
    }
  }

  /** Every engine call comes right after the data-mode acknowledgement. */
  predicate SpeaksAcknowledged(es: seq<Event>) {
    forall i :: 0 <= i < |es| && es[i].Speak? ==> 0 < i && es[i - 1] == Reply(DataReply)
  }

  lemma {:induction false} SpeakFollowsAck(lines: seq<Line>)
    ensures SpeaksAcknowledged(Commands(lines))
    decreases |lines|
  {
    if lines != [] {
      var es := Commands(lines);
      match lines[0].command
      case Blank => SpeakFollowsAck(lines[1..]);
      case Set =>
        SpeakFollowsAck(lines[1..]);
        assert es == [Reply(SetReply)] + Commands(lines[1..]);
      case SpeakData =>
        var data := lines[1..];
        var rest := AfterData(data);
        SpeakFollowsAck(rest);
        assert es == [Reply(DataReply), Speak(Concat(Raws(data[..DataLength(data)]))), Reply(QueuedReply)] + Commands(rest);
      case Quit =>
      case Unknown =>
        SpeakFollowsAck(lines[1..]);
        assert es == [Reply(IgnoredReply)] + Commands(lines[1..]);
    }
  }

  // ------------------------------------------------------------------ binding

  /** How many binds `start_server` may attempt: the first and five retries. */
  const MaxBindAttempts: nat := 6

  /**
   * The bind loop of `start_server`: `bindSucceeds(i)` is the outcome of the
   * i-th attempt (0-based). Returns whether a listener was obtained and how
   * many attempts were made.
   */
  method BindWithRetries(bindSucceeds: nat -> bool) returns (bound: bool, attempts: nat)
    ensures 1 <= attempts <= MaxBindAttempts
    ensures forall i :: 0 <= i < attempts - 1 ==> !bindSucceeds(i)
    ensures bound == bindSucceeds(attempts - 1)
    ensures !bound ==> attempts == MaxBindAttempts
    ensures bound <==> exists i :: 0 <= i < MaxBindAttempts && bindSucceeds(i)
  {
    var retries := 5;
    attempts := 0;
    while true
      invariant 0 <= retries <= 5 && attempts == 5 - retries
      invariant forall i :: 0 <= i < attempts ==> !bindSucceeds(i)
      decreases retries
    {
      attempts := attempts + 1;
      if bindSucceeds(attempts - 1) {
        return true, attempts;
      }
      if retries > 0 {
        retries := retries - 1;
      } else {
        return false, attempts;
      }
    }
  }
}
