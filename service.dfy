/**
 * The pieces of the D-Bus service that are logic rather than plumbing: the
 * parser of `wpctl status` that lists PipeWire sinks, the choice of the
 * default sink, the id in `wpctl inspect @DEFAULT_AUDIO_SINK@`, the argument
 * guards of the settings methods, and the rate-limit check in front of
 * `Speak`.
 *
 * Command outputs are parameters (`None` when the command could not be run);
 * the outcomes of external commands and of lock acquisition are booleans.
 */
module Service {
  import opened Wrappers
  import opened Text
  import RateLimiter

  // ------------------------------------------------------------------ sinks

  /** One entry of `ListSinks`: id, name, description (the name again) and the default flag. */
  datatype Sink = Sink(id: nat, name: string, description: string, isDefault: bool)

  /** The line that opens the sink list of `wpctl status`. */
  predicate IsSinksHeader(line: string) {
    Contains(line, "Sinks:") && !Contains(line, "Sources:")
  }

  /** A line that closes the sink list. */
  predicate EndsSinks(line: string) {
    Contains(line, "Sources:") || Contains(line, "Streams:") || Contains(line, "Filters:")
  }

  /** The box-drawing characters of the tree `wpctl status` draws. */
  predicate IsBoxChar(c: char) {
    c == '│' || c == '├' || c == '└' || c == '─'
    || c == '┬' || c == '┤' || c == '┴' || c == '┼'
  }

  /** The line with every box-drawing character removed. */
  function RemoveBoxChars(s: string): (r: string)
    ensures |r| <= |s|
  {
    if s == [] then []
    else (if IsBoxChar(s[0]) then [] else [s[0]]) + RemoveBoxChars(s[1..])
  }

  /** The filter keeps exactly the characters that are not box drawing. */
  lemma {:induction false} RemoveBoxCharsKeeps(s: string)
    ensures forall c :: c in RemoveBoxChars(s) <==> c in s && !IsBoxChar(c)
    decreases |s|
  {
    if s != [] {
      RemoveBoxCharsKeeps(s[1..]);
      assert s == [s[0]] + s[1..];
    }
  }

  /**
   * One line of the sink list: "<id>. <name> [vol: …]" after the tree
   * drawing and a leading '*' are stripped. Lines with neither "[vol:" nor
   * "." are skipped; a line whose id does not parse as u32, or whose name is
   * empty, yields nothing.
   */
  function ParseSinkLine(line: string): (r: Option<Sink>)
    ensures !Contains(line, "[vol:") && !Contains(line, ".") ==> r.None?
    ensures r.Some? ==>
      && r.value.id < U32Limit
      && r.value.name != [] && r.value.description == r.value.name
      && (r.value.isDefault <==> '*' in line)
  {
    if !Contains(line, "[vol:") && !Contains(line, ".") then None
    else ParseEntry(CleanEntry(line), '*' in line)
  }

  /** The line without tree drawing, surrounding blanks and the default marker. */
  function CleanEntry(line: string): (r: string)
    ensures |r| <= |line|
    ensures r == [] || (!IsWhite(r[0]) && !IsWhite(r[|r| - 1]))
  {
    TrimIsCore(TrimStartChar(Trim(RemoveBoxChars(line)), '*'));
    Trim(TrimStartChar(Trim(RemoveBoxChars(line)), '*'))
  }

  /** "<id>. <name> [vol: …]": the id before the first '.', the name after it up to "[vol:". */
  function ParseEntry(trimmed: string, isDefault: bool): (r: Option<Sink>)
    ensures r.Some? ==>
      && r.value.id < U32Limit && r.value.isDefault == isDefault
      && r.value.name != [] && r.value.description == r.value.name
  {
    match IndexOf(trimmed, '.')
    case None => None
    case Some(dot) =>
      match ParseU32(Trim(trimmed[..dot]))
      case None => None
      case Some(id) =>
        var name := NameBeforeVolume(Trim(trimmed[dot + 1..]));
        if name == [] then None else Some(Sink(id, name, name, isDefault))
  }

  /** The text before "[vol:", trimmed, or all of it when there is no volume. */
  function NameBeforeVolume(rest: string): string {
    match Find(rest, "[vol:")
    case Some(v) => Trim(rest[..v])
    case None => rest
  }

  /** The sinks the lines yield, `inSinks` telling whether the sink list has been entered. */
  function SinksFrom(lines: seq<string>, inSinks: bool): (r: seq<Sink>)
    ensures |r| <= |lines|
    ensures !inSinks && (forall i :: 0 <= i < |lines| ==> !IsSinksHeader(lines[i])) ==> r == []
    decreases |lines|
  {
    if lines == [] then []
    else
      assert forall i :: 0 <= i < |lines| - 1 ==> lines[1..][i] == lines[i + 1];
      if IsSinksHeader(lines[0]) then SinksFrom(lines[1..], true)
      else if !inSinks then SinksFrom(lines[1..], false)
      else if EndsSinks(lines[0]) then []
      else
        match ParseSinkLine(lines[0])
        case Some(sink) => [sink] + SinksFrom(lines[1..], true)
        case None => SinksFrom(lines[1..], true)
  }

  /**
   * The parser loop of `list_sinks` over the lines of `wpctl status`; a
   * failed command gives no sinks.
   */
  method ListSinks(status: Option<string>) returns (sinks: seq<Sink>)
    ensures status.None? ==> sinks == []
    ensures status.Some? ==> sinks == SinksFrom(Lines(status.value), false)
  {
    sinks := [];
    if status.None? {
      return;
    }
    var lines := Lines(status.value);
    var inSinks := false;
    var i := 0;
    assert lines[0..] == lines;
    while i < |lines|
      invariant i <= |lines|
      invariant sinks + SinksFrom(lines[i..], inSinks) == SinksFrom(lines, false)
    {
      var line := lines[i];
      assert lines[i..][1..] == lines[i + 1..];
      if Contains(line, "Sinks:") && !Contains(line, "Sources:") {
        inSinks := true;
        i := i + 1;
        continue;
      }
      if inSinks {
        if Contains(line, "Sources:") || Contains(line, "Streams:") || Contains(line, "Filters:") {
          return;
        }
        var parsed := ParseSinkLine(line);
        if parsed.Some? {
          Regroup(sinks, [parsed.value], SinksFrom(lines[i + 1..], true));
          sinks := sinks + [parsed.value];
        }
      }
      i := i + 1;
    }
    assert lines[i..] == [];
  }

  /** No sink comes from lines before the first "Sinks:" header. */
  lemma {:induction false} NoSinkBeforeHeader(before: seq<string>, rest: seq<string>)
    requires forall k :: 0 <= k < |before| ==> !IsSinksHeader(before[k])
    ensures SinksFrom(before + rest, false) == SinksFrom(rest, false)
    decreases |before|
  {
    if before != [] {
      assert (before + rest)[1..] == before[1..] + rest;
      NoSinkBeforeHeader(before[1..], rest);
    } else {
      assert before + rest == rest;
    }
  }

  /** Once the list has ended, nothing later is read. */
  lemma {:induction false} NothingAfterSectionEnd(before: seq<string>, end: string, rest: seq<string>)
    requires EndsSinks(end) && !IsSinksHeader(end)
    ensures SinksFrom(before + [end] + rest, true) == SinksFrom(before + [end], true)
    decreases |before|
  {
    if before != [] {
      assert (before + [end] + rest)[1..] == before[1..] + [end] + rest;
      assert (before + [end])[1..] == before[1..] + [end];
      NothingAfterSectionEnd(before[1..], end, rest);
    } else {
      assert (before + [end] + rest)[0] == end;
      assert (before + [end])[0] == end;
    }
  }

  /** Every sink listed is what its own line parses to, so it has a u32 id, a non-empty name, and the line's default flag. */
  lemma {:induction false} SinksComeFromLines(lines: seq<string>, inSinks: bool)
    ensures forall s :: s in SinksFrom(lines, inSinks) ==>
      exists k :: 0 <= k < |lines| && ParseSinkLine(lines[k]) == Some(s)
    decreases |lines|
  {
    if lines != [] {
      var tail := lines[1..];
      SinksComeFromLines(tail, true);
      SinksComeFromLines(tail, false);
      forall s | s in SinksFrom(lines, inSinks)
        ensures exists k :: 0 <= k < |lines| && ParseSinkLine(lines[k]) == Some(s)
      {
        if ParseSinkLine(lines[0]) == Some(s) {
        } else {
          var k :| 0 <= k < |tail| && ParseSinkLine(tail[k]) == Some(s);
          assert lines[k + 1] == tail[k];
        }
      }
    }
  }

  // ------------------------------------------------------------------ sink lines round trip

  predicate NoBox(s: string) {
    forall i :: 0 <= i < |s| ==> !IsBoxChar(s[i])
  }

  /** The tree drawing in front of an entry: whitespace and box-drawing characters only. */
  predicate TreeLead(lead: string) {
    forall i :: 0 <= i < |lead| ==> IsWhite(lead[i]) || IsBoxChar(lead[i])
  }

  /** A sink name as PipeWire shows it: no surrounding blanks, no '[', '*' or tree drawing. */
  predicate PlainName(name: string) {
    && name != [] && !IsWhite(name[0]) && !IsWhite(name[|name| - 1])
    && '[' !in name && '*' !in name && NoBox(name)
  }

  /** "[vol: <vol>]" */
  function VolumeTag(vol: string): string {
    "[vol:" + (" " + (vol + "]"))
  }

  /** "<id>. <name><pad>[vol: <vol>]" */
  function SinkEntry(n: nat, name: string, pad: string, vol: string): string {
    NatToString(n) + (". " + (name + (pad + (VolumeTag(vol)))))
  }

  /** A sink line of `wpctl status`: tree drawing, '*' for the default sink or a blank, spaces, the entry. */
  function SinkLine(lead: string, isDefault: bool, n: nat, name: string, pad: string, vol: string): string {
    lead + ((if isDefault then "*" else " ") + ("   " + SinkEntry(n, name, pad, vol)))
  }

  /** Parsing a sink line gives back the sink it shows. */
  lemma SinkLineRoundTrip(lead: string, isDefault: bool, n: nat, name: string, pad: string, vol: string)
    requires TreeLead(lead) && n < U32Limit && PlainName(name) && AllWhite(pad)
    requires NoBox(vol) && '*' !in vol
    ensures ParseSinkLine(SinkLine(lead, isDefault, n, name, pad, vol)) == Some(Sink(n, name, name, isDefault))
  {
    var line := SinkLine(lead, isDefault, n, name, pad, vol);
    CleanedSinkLine(lead, isDefault, n, name, pad, vol);
    StarMarksDefault(lead, isDefault, n, name, pad, vol);
    EntryParses(n, name, pad, vol, isDefault);
    var d := NatToString(n);
    var mark := if isDefault then "*" else " ";
    ContainsAtStart("[vol:", " " + (vol + "]"));
    ContainsAfter(pad, VolumeTag(vol), "[vol:");
    ContainsAfter(name, pad + VolumeTag(vol), "[vol:");
    ContainsAfter(". ", name + (pad + VolumeTag(vol)), "[vol:");
    ContainsAfter(d, ". " + (name + (pad + VolumeTag(vol))), "[vol:");
    ContainsAfter("   ", SinkEntry(n, name, pad, vol), "[vol:");
    ContainsAfter(mark, "   " + SinkEntry(n, name, pad, vol), "[vol:");
    ContainsAfter(lead, mark + ("   " + SinkEntry(n, name, pad, vol)), "[vol:");
  }

  lemma EntryParses(n: nat, name: string, pad: string, vol: string, isDefault: bool)
    requires n < U32Limit && PlainName(name) && AllWhite(pad)
    ensures ParseEntry(SinkEntry(n, name, pad, vol), isDefault) == Some(Sink(n, name, name, isDefault))
  {
    var e := SinkEntry(n, name, pad, vol);
    var d := NatToString(n);
    assert IndexOf(e, '.') == Some(|d|) && e[..|d|] == d && ParseU32(Trim(d)) == Some(n) by {
      EntryId(n, name, pad, vol);
    }
    EntryRestName(n, name, pad, vol);
    ParseEntryOfPieces(e, d, n, name, isDefault);
  }

  lemma EntryRestName(n: nat, name: string, pad: string, vol: string)
    requires PlainName(name) && AllWhite(pad)
    ensures var e := SinkEntry(n, name, pad, vol);
      |NatToString(n)| < |e| && NameBeforeVolume(Trim(e[|NatToString(n)| + 1..])) == name
  {
    var e := SinkEntry(n, name, pad, vol);
    assert e[|NatToString(n)| + 1..] == " " + (name + (pad + (VolumeTag(vol))));
    EntryName(name, pad, vol);
  }

  lemma ParseEntryOfPieces(e: string, d: string, n: nat, name: string, isDefault: bool)
    requires IndexOf(e, '.') == Some(|d|) && e[..|d|] == d && ParseU32(Trim(d)) == Some(n)
    requires NameBeforeVolume(Trim(e[|d| + 1..])) == name && name != []
    ensures ParseEntry(e, isDefault) == Some(Sink(n, name, name, isDefault))
  {
  }

  lemma {:induction false} RemoveBoxAppend(a: string, b: string)
    ensures RemoveBoxChars(a + b) == RemoveBoxChars(a) + RemoveBoxChars(b)
    decreases |a|
  {
    if a != [] {
      assert (a + b)[1..] == a[1..] + b;
      RemoveBoxAppend(a[1..], b);
    } else {
      assert a + b == b;
    }
  }

  lemma {:induction false} RemoveBoxNone(s: string)
    requires NoBox(s)
    ensures RemoveBoxChars(s) == s
    decreases |s|
  {
    if s != [] {
      RemoveBoxNone(s[1..]);
    }
  }

  lemma {:induction false} RemoveBoxLead(lead: string)
    requires TreeLead(lead)
    ensures AllWhite(RemoveBoxChars(lead))
    decreases |lead|
  {
    if lead != [] {
      RemoveBoxLead(lead[1..]);
      var r := RemoveBoxChars(lead[1..]);
      if !IsBoxChar(lead[0]) {
        assert RemoveBoxChars(lead) == [lead[0]] + r;
      }
    }
  }

  lemma EntryShape(n: nat, name: string, pad: string, vol: string)
    requires PlainName(name) && AllWhite(pad) && NoBox(vol) && '*' !in vol
    ensures var e := SinkEntry(n, name, pad, vol);
      EntryEnds(e) && NoBox(e) && '*' !in e
  {
    var d := NatToString(n);
    var e := SinkEntry(n, name, pad, vol);
    assert e[0] == d[0];
    forall i | 0 <= i < |e| ensures !IsBoxChar(e[i]) && e[i] != '*' {
      if i < |d| {
        assert e[i] == d[i] && IsDigit(d[i]);
      } else if i < |d| + 2 {
      } else if i < |d| + 2 + |name| {
        assert e[i] == name[i - |d| - 2];
      } else if i < |d| + 2 + |name| + |pad| {
        assert e[i] == pad[i - |d| - 2 - |name|];
      } else if i < |d| + 8 + |name| + |pad| {
      } else if i < |e| - 1 {
        assert e[i] == vol[i - |d| - 8 - |name| - |pad|];
      }
    }
  }

  /** What is left after the tree drawing, the blanks and the '*' are stripped is the entry. */
  lemma CleanedSinkLine(lead: string, isDefault: bool, n: nat, name: string, pad: string, vol: string)
    requires TreeLead(lead) && PlainName(name) && AllWhite(pad) && NoBox(vol) && '*' !in vol
    ensures Trim(TrimStartChar(Trim(RemoveBoxChars(SinkLine(lead, isDefault, n, name, pad, vol))), '*'))
      == SinkEntry(n, name, pad, vol)
  {
    var e := SinkEntry(n, name, pad, vol);
    var mark := if isDefault then "*" else " ";
    EntryShape(n, name, pad, vol);
    UnboxedSinkLine(lead, mark, e);
    if isDefault {
      StripDefaultMark(RemoveBoxChars(lead), e);
    } else {
      StripBlankMark(RemoveBoxChars(lead), e);
    }
  }

  /** Removing the tree drawing leaves blanks, the mark and the entry. */
  lemma UnboxedSinkLine(lead: string, mark: string, e: string)
    requires TreeLead(lead) && NoBox(e) && (mark == "*" || mark == " ")
    ensures AllWhite(RemoveBoxChars(lead))
    ensures RemoveBoxChars(lead + (mark + ("   " + e))) == RemoveBoxChars(lead) + (mark + ("   " + e))
  {
    var body := mark + ("   " + e);
    RemoveBoxAppend(lead, body);
    RemoveBoxLead(lead);
    forall i | 0 <= i < |body| ensures !IsBoxChar(body[i]) {
      if i >= 4 {
        assert body[i] == e[i - 4];
      }
    }
    RemoveBoxNone(body);
  }

  /** An entry that starts with a digit and ends with ']' survives the trimming. */
  predicate EntryEnds(e: string) {
    e != [] && IsDigit(e[0]) && e[|e| - 1] == ']'
  }

  lemma StripDefaultMark(w: string, e: string)
    requires AllWhite(w) && EntryEnds(e)
    ensures Trim(TrimStartChar(Trim(w + ("*" + ("   " + e))), '*')) == e
  {
    var core := "*" + ("   " + e);
    TrimPadded(w, core, []);
    assert w + core + [] == w + core;
    assert TrimStartChar(core, '*') == TrimStartChar("   " + e, '*');
    assert TrimStartChar("   " + e, '*') == "   " + e;
    TrimPadded("   ", e, []);
    assert "   " + e + [] == "   " + e;
  }

  lemma StripBlankMark(w: string, e: string)
    requires AllWhite(w) && EntryEnds(e)
    ensures Trim(TrimStartChar(Trim(w + (" " + ("   " + e))), '*')) == e
  {
    var ws := w + "    ";
    assert AllWhite(ws) by {
      forall i | 0 <= i < |ws|
        ensures IsWhite(ws[i])
      {
        if i < |w| {
          assert ws[i] == w[i];
        }
      }
    }
    var s := w + (" " + ("   " + e));
    assert s == ws + e + [];
    TrimPadded(ws, e, []);
    assert Trim(s) == e;
    assert TrimStartChar(e, '*') == e;
    TrimPadded([], e, []);
    assert [] + e + [] == e;
  }

  /** The entry's first '.' ends its id, which parses back to `n`. */
  lemma EntryId(n: nat, name: string, pad: string, vol: string)
    requires n < U32Limit
    ensures var e := SinkEntry(n, name, pad, vol);
      var d := NatToString(n);
      && IndexOf(e, '.') == Some(|d|)
      && e[..|d|] == d
      && ParseU32(Trim(d)) == Some(n)
  {
    var e := SinkEntry(n, name, pad, vol);
    var d := NatToString(n);
    assert e[|d|] == '.';
    assert e[..|d|] == d;
    assert '.' !in d by {
      forall i | 0 <= i < |d| ensures d[i] != '.' {
        assert IsDigit(d[i]);
      }
    }
    TrimPadded([], d, []);
    assert [] + d + [] == d;
    ParseU32OfNatToString(n);
  }

  /** After the ". ", the name runs up to the padding before "[vol:". */
  lemma EntryName(name: string, pad: string, vol: string)
    requires PlainName(name) && AllWhite(pad)
    ensures var rest := Trim(" " + (name + (pad + VolumeTag(vol))));
      && rest == name + (pad + VolumeTag(vol))
      && NameBeforeVolume(rest) == name
  {
    var tag := VolumeTag(vol);
    var rest := name + (pad + tag);
    assert rest[0] == name[0] && rest[|rest| - 1] == tag[|tag| - 1] == ']';
    TrimPadded(" ", rest, []);
    assert " " + rest + [] == " " + rest;
    NameOfRest(name, pad, vol);
  }

  lemma NameOfRest(name: string, pad: string, vol: string)
    requires PlainName(name) && AllWhite(pad)
    ensures NameBeforeVolume(name + (pad + VolumeTag(vol))) == name
  {
    var rest := name + (pad + VolumeTag(vol));
    FindVolume(name, pad, vol);
    assert rest[..|name| + |pad|] == name + pad;
    TrimPadded([], name, pad);
    assert [] + name + pad == name + pad;
  }

  lemma FindVolume(name: string, pad: string, vol: string)
    requires '[' !in name && AllWhite(pad)
    ensures Find(name + (pad + VolumeTag(vol)), "[vol:") == Some(|name| + |pad|)
  {
    var rest := name + (pad + VolumeTag(vol));
    var at := |name| + |pad|;
    assert rest[at..at + 5] == "[vol:";
    forall j | 0 <= j < at ensures !IsAt(rest, "[vol:", j) {
      if j < |name| {
        assert rest[j] == name[j];
      } else {
        assert rest[j] == pad[j - |name|];
      }
    }
    assert IsAt(rest, "[vol:", at);
  }

  /** The line holds a '*' exactly when it shows the default sink. */
  lemma StarMarksDefault(lead: string, isDefault: bool, n: nat, name: string, pad: string, vol: string)
    requires TreeLead(lead) && PlainName(name) && AllWhite(pad) && NoBox(vol) && '*' !in vol
    ensures '*' in SinkLine(lead, isDefault, n, name, pad, vol) <==> isDefault
  {
    var line := SinkLine(lead, isDefault, n, name, pad, vol);
    var e := SinkEntry(n, name, pad, vol);
    EntryShape(n, name, pad, vol);
    if isDefault {
      assert line[|lead|] == '*';
    } else {
      forall i | 0 <= i < |line| ensures line[i] != '*' {
        if i < |lead| {
          assert line[i] == lead[i];
        } else if i >= |lead| + 4 {
          assert line[i] == e[i - |lead| - 4];
        }
      }
    }
  }

  // ------------------------------------------------------------------ default sink

  /** `get_default_sink`: id and name of the first sink flagged default, else (0, ""). */
  function DefaultSink(sinks: seq<Sink>): (r: (nat, string))
    ensures (forall k :: 0 <= k < |sinks| ==> !sinks[k].isDefault) ==> r == (0, "")
    ensures forall k :: 0 <= k < |sinks| && sinks[k].isDefault && (forall j :: 0 <= j < k ==> !sinks[j].isDefault) ==>
      r == (sinks[k].id, sinks[k].name)
  {
    if sinks == [] then (0, "")
    else if sinks[0].isDefault then (sinks[0].id, sinks[0].name)
    else
      var r := DefaultSink(sinks[1..]);
      assert forall k :: 1 <= k < |sinks| ==> sinks[k] == sinks[1..][k - 1];
      r
  }

  // ------------------------------------------------------------------ default id

  /** `wpctl inspect` marks the line carrying the node id by starting it with "id". */
  predicate IsIdLine(line: string) {
    StartsWith(Trim(line), "id")
  }

  /** The first line that is an id line, if any. */
  function FirstIdLine(lines: seq<string>): (r: Option<nat>)
    ensures r.Some? ==> r.value < |lines| && IsIdLine(lines[r.value])
    ensures r.Some? ==> forall k :: 0 <= k < r.value ==> !IsIdLine(lines[k])
    ensures r.None? ==> forall k :: 0 <= k < |lines| ==> !IsIdLine(lines[k])
  {
    if lines == [] then None
    else if IsIdLine(lines[0]) then Some(0)
    else
      match FirstIdLine(lines[1..])
      case None =>
        assert forall k :: 1 <= k < |lines| ==> lines[k] == lines[1..][k - 1];
        None
      case Some(k) =>
        assert forall j :: 1 <= j < k + 1 ==> lines[j] == lines[1..][j - 1];
        Some(k + 1)
  }

  /** The id in one line: its second whitespace-separated token, commas trimmed, as u32. */
  function IdOfLine(line: string): (r: Option<nat>)
    ensures r.Some? ==> r.value < U32Limit
  {
    var words := SplitWhitespace(line);
    if |words| < 2 then None else ParseU32(TrimChar(words[1], ','))
  }

  /** The id of the first id line, if there is one and it parses. */
  function DefaultIdFromLines(lines: seq<string>): (r: Option<nat>)
    ensures r.Some? ==> r.value < U32Limit
  {
    match FirstIdLine(lines)
    case None => None
    case Some(k) => IdOfLine(lines[k])
  }

  /**
   * The current default sink from `wpctl inspect @DEFAULT_AUDIO_SINK@`:
   * None when the command could not be run.
   */
  function DefaultIdFromInspect(inspect: Option<string>): (r: Option<nat>)
    ensures r.Some? ==> inspect.Some? && r.value < U32Limit
  {
    match inspect
    case None => None
    case Some(out) => DefaultIdFromLines(Lines(out))
  }

  /** The line `wpctl inspect` prints for node `n`: "id <n>, type …", possibly indented. */
  function IdLine(indent: string, n: nat, tail: string): string {
    indent + ("id" + " " + ((NatToString(n) + ",") + tail))
  }

  /** Reading the id back from the line that prints it gives the same u32. */
  lemma IdOfIdLine(indent: string, n: nat, tail: string)
    requires n < U32Limit && AllWhite(indent)
    requires tail == [] || IsWhite(tail[0])
    ensures IsIdLine(IdLine(indent, n, tail))
    ensures IdOfLine(IdLine(indent, n, tail)) == Some(n)
  {
    var d := NatToString(n);
    IdLineStartsWithId(indent, d + ",", tail);
    DigitsAreNoWhite(d);
    SecondWord(indent, "id", " ", d + ",", tail);
    TrimCommaAfterDigits(d);
    ParseU32OfNatToString(n);
  }

  lemma DigitsAreNoWhite(d: string)
    requires AllDigits(d)
    ensures NoWhite(d + ",")
  {
    var w := d + ",";
    forall i | 0 <= i < |w| ensures !IsWhite(w[i]) {
      if i < |d| {
        assert IsDigit(d[i]);
      }
    }
  }

  lemma TrimCommaAfterDigits(d: string)
    requires d != [] && AllDigits(d)
    ensures TrimChar(d + ",", ',') == d
  {
    var w := d + ",";
    assert TrimStartChar(w, ',') == w;
    assert w[..|w| - 1] == d;
    assert TrimEndChar(d, ',') == d;
  }

  lemma IdLineStartsWithId(indent: string, word: string, tail: string)
    requires AllWhite(indent) && word != [] && word[|word| - 1] == ','
    ensures IsIdLine(indent + ("id" + " " + (word + tail)))
  {
    var body := "id" + " " + (word + tail);
    TrimStartSkipsWhite(indent, body);
    assert TrimStart(body) == body;
    TrimEndSpec(body);
    var r := TrimEnd(body);
    assert body[2 + |word|] == ',';
    assert r[..2] == body[..2];
  }

  /** After leading whitespace, a first word and whitespace, `word` is the second word. */
  lemma SecondWord(indent: string, first: string, sep: string, word: string, tail: string)
    requires AllWhite(indent) && first != [] && NoWhite(first) && sep != [] && AllWhite(sep)
    requires word != [] && NoWhite(word) && (tail == [] || IsWhite(tail[0]))
    ensures var ws := SplitWhitespace(indent + (first + sep + (word + tail)));
      |ws| >= 2 && ws[1] == word
  {
    SplitWhitespaceSkipsWhite(indent, first + sep + (word + tail));
    SplitWhitespaceCons(first, sep, word + tail);
    SplitWhitespaceHead(word, tail);
  }

  /** The first id line decides: the id it prints is the default sink found. */
  lemma DefaultIdRoundTrip(before: seq<string>, indent: string, n: nat, tail: string, after: seq<string>)
    requires forall k :: 0 <= k < |before| ==> !IsIdLine(before[k])
    requires n < U32Limit && AllWhite(indent)
    requires tail == [] || IsWhite(tail[0])
    ensures DefaultIdFromLines(before + [IdLine(indent, n, tail)] + after) == Some(n)
  {
    var lines := before + [IdLine(indent, n, tail)] + after;
    IdOfIdLine(indent, n, tail);
    assert lines[|before|] == IdLine(indent, n, tail);
    assert forall k :: 0 <= k < |before| ==> lines[k] == before[k];
  }

  // ------------------------------------------------------------------ settings guards

  /** The settings the guarded methods change, and the model override of the AI. */
  class ServiceState {
    var wakeWord: string
    var modelOverride: Option<string>

    constructor (wakeWord: string)
      ensures this.wakeWord == wakeWord && modelOverride.None?
    {
      this.wakeWord := wakeWord;
      modelOverride := None;
    }

    /**
     * `set_wake_word`: an empty word is refused before anything else; a
     * Polkit denial is refused before the setting changes; then the word is
     * stored and the listener restarted if it can be reached.
     */
    method SetWakeWord(word: string, permitted: bool, earReachable: bool) returns (r: Result<bool, string>)
      modifies this
      ensures word == [] ==> r == Err("Wake word cannot be empty") && unchanged(this)
      ensures word != [] && !permitted ==> r.Err? && unchanged(this)
      ensures word != [] && permitted ==> wakeWord == word && r == (if earReachable then Ok(true) else Err("Ear locked"))
      ensures modelOverride == old(modelOverride)
    {
      if word == [] {
        return Err("Wake word cannot be empty");
      }
      if !permitted {
        return Err("Polkit denied");
      }
      wakeWord := word;
      if earReachable {
        r := Ok(true);
      } else {
        r := Err("Ear locked");
      }
    }

    /** `set_brain_model`: an empty name is refused; otherwise it becomes the override. */
    method SetBrainModel(model: string, lockAvailable: bool) returns (ok: bool)
      modifies this
      ensures ok <==> model != [] && lockAvailable
      ensures ok ==> modelOverride == Some(model)
      ensures !ok ==> modelOverride == old(modelOverride)
      ensures wakeWord == old(wakeWord)
    {
      if model == [] {
        return false;
      }
      if !lockAvailable {
        return false;
      }
      modelOverride := Some(model);
      ok := true;
    }

    /**
     * `manage_brain`: "start", "stop" and "pull" report whether their command
     * could be launched (`commandOk`); "use" is `set_brain_model`; anything
     * else is refused.
     */
    method ManageBrain(action: string, param: string, commandOk: bool, lockAvailable: bool) returns (ok: bool)
      modifies this
      ensures action == "start" || action == "stop" || action == "pull" ==> ok == commandOk && unchanged(this)
      ensures action == "use" ==> ok == (param != [] && lockAvailable) && (ok ==> modelOverride == Some(param))
      ensures action !in {"start", "stop", "pull", "use"} ==> !ok && unchanged(this)
      ensures !ok ==> modelOverride == old(modelOverride)
      ensures wakeWord == old(wakeWord)
    {
      if action == "start" || action == "stop" || action == "pull" {
        ok := commandOk;
      } else if action == "use" {
        ok := SetBrainModel(param, lockAvailable);
      } else {
        ok := false;
      }
    }
  }

  // ------------------------------------------------------------------ speak

  /** What `Speak` did: its reply, the text handed to the engine, and the text passed to the AI's observer. */
  datatype SpeakOutcome = SpeakOutcome(reply: Result<(), string>, spoken: seq<string>, observed: seq<string>)

  /**
   * `Speak`: a caller the limiter refuses gets "Rate limited" and nothing
   * reaches the engine or the AI; otherwise the text is spoken when audio is
   * enabled and observed when the AI is enabled. A message without a sender
   * is not rate-limited.
   */
  method Speak(limiter: RateLimiter.Limiter, sender: Option<string>, text: string,
               audioEnabled: bool, aiEnabled: bool, now: real) returns (out: SpeakOutcome)
    requires limiter.Valid()
    modifies limiter, limiter.buckets.Values
    ensures limiter.Valid()
    ensures sender.Some? && !old(limiter.Admits(sender.value, RateLimiter.Tts, now)) ==>
      out == SpeakOutcome(Err("Rate limited"), [], [])
    ensures sender.None? || old(limiter.Admits(sender.value, RateLimiter.Tts, now)) ==>
      && out.reply == Ok(())
      && out.spoken == (if audioEnabled then [text] else [])
      && out.observed == (if aiEnabled then [text] else [])
    ensures sender.None? ==>
      && unchanged(limiter) && limiter.buckets == old(limiter.buckets)
      && forall k :: k in limiter.buckets ==> unchanged(limiter.buckets[k])
    ensures sender.Some? ==>
      var key := (sender.value, RateLimiter.Tts);
      var level := old(limiter.LevelAt(sender.value, RateLimiter.Tts, now));
      && limiter.buckets.Keys == old(limiter.buckets.Keys) + {key}
      && (forall k :: k in old(limiter.buckets) ==> limiter.buckets[k] == old(limiter.buckets[k]))
      && (forall k :: k in old(limiter.buckets) && k != key ==> unchanged(old(limiter.buckets[k])))
      && (key !in old(limiter.buckets) ==> fresh(limiter.buckets[key]))
      && limiter.buckets[key].tokens == (if out.reply.Ok? then level - 1.0 else level)
      && limiter.buckets[key].lastUpdate == now
  {
    if sender.Some? {
      var admitted := limiter.Check(sender.value, RateLimiter.Tts, now);
      if !admitted {
        return SpeakOutcome(Err("Rate limited"), [], []);
      }
    }
    var spoken := if audioEnabled then [text] else [];
    var observed := if aiEnabled then [text] else [];
    out := SpeakOutcome(Ok(()), spoken, observed);
  }
}
