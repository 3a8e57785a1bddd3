/**
 * The X11 window context: the active window's id read from the output of
 * `xprop -root _NET_ACTIVE_WINDOW`, then its title and class read from the
 * output of `xprop -id <id> _NET_WM_NAME WM_CLASS`. The two command outputs
 * are parameters (None when the command could not be run).
 */
module X11Context {
  import opened Wrappers
  import opened Text

  const WindowIdMarker := "window id # "
  const ValueSep := " = \""
  const SecondFieldSep := ", \""
  const UnknownWindow := "Unknown Window"
  const UnknownApp := "Unknown App"

  /** The first word after the first "window id # ", when there is one. */
  function WindowId(root: string): (r: Option<string>)
    ensures !Contains(root, WindowIdMarker) ==> r == None
    ensures r.Some? ==> r.value != [] && NoWhite(r.value)
  {
    match SplitSecond(root, WindowIdMarker)
    case None => None
    case Some(piece) =>
      var words := SplitWhitespace(Trim(piece));
      SplitWhitespaceWords(Trim(piece));
      if words == [] then None else Some(words[0])
  }

  /** The id is read back from an xprop root line "<prefix>window id # <id>" followed by whitespace or nothing. */
  lemma WindowIdOfRootLine(prefix: string, id: string, tail: string)
    requires '#' !in prefix
    requires id != [] && NoWhite(id) && '#' !in id
    requires tail == [] || (IsWhite(tail[0]) && '#' !in tail)
    ensures WindowId(prefix + WindowIdMarker + (id + tail)) == Some(id)
  {
    var piece := id + tail;
    var early := prefix + WindowIdMarker[..|WindowIdMarker| - 1];
    assert forall k :: 0 <= k < |early| && early[k] == '#' ==> k == |early| - 1 by {
      forall k | 0 <= k < |early| && early[k] == '#'
        ensures k == |early| - 1
      {
        if k >= |prefix| {
          assert early[k] == WindowIdMarker[k - |prefix|];
        }
      }
    }
    LateHashNoMarker(early);
    LateHashNoMarker(piece);
    SplitSecondAfterPrefix(prefix, WindowIdMarker, piece);
    TrimOfWordThenWhite(id, tail);
  }

  // ---------------------------------------------------------------------------
  // Window properties

  /** The value of a `_NET_WM_NAME` line: after the first ` = "`, up to the next one, ending in '"' which is dropped. */
  function QuotedValue(line: string): (r: Option<string>)
    ensures !Contains(line, ValueSep) ==> r.None?
    ensures r.Some? ==> |r.value| + |ValueSep| < |line|
  {
    match SplitSecond(line, ValueSep)
    case None => None
    case Some(piece) => StripSuffix(piece, '"')
  }

  /** The value of a `WM_CLASS` line: the second quoted field, or else the first. */
  function ClassValue(line: string): (r: Option<string>)
    ensures !Contains(line, ValueSep) && !Contains(line, SecondFieldSep) ==> r.None?
    ensures r.Some? ==> |r.value| + |SecondFieldSep| < |line|
  {
    match SplitSecond(line, SecondFieldSep)
    case Some(piece) =>
      (match StripSuffix(piece, '"') case Some(c) => Some(c) case None => QuotedValue(line))
    case None => QuotedValue(line)
  }

  /** What one output line does to the (name, app) read so far. */
  function Step(props: (string, string), line: string): (r: (string, string))
    ensures !Contains(line, "_NET_WM_NAME") ==> r.0 == props.0
    ensures Contains(line, "_NET_WM_NAME") || !Contains(line, "WM_CLASS") ==> r.1 == props.1
    ensures r.0 != props.0 ==> QuotedValue(line) == Some(r.0)
    ensures r.1 != props.1 ==> ClassValue(line) == Some(r.1)
  {
    if Contains(line, "_NET_WM_NAME") then
      (match QuotedValue(line) case Some(n) => (n, props.1) case None => props)
    else if Contains(line, "WM_CLASS") then
      (match ClassValue(line) case Some(c) => (props.0, c) case None => props)
    else props
  }

  /** The (name, app) after reading `lines`, starting from the defaults. */
  function Props(lines: seq<string>): (r: (string, string))
    ensures r.0 == UnknownWindow || exists i :: 0 <= i < |lines| && Contains(lines[i], "_NET_WM_NAME") && QuotedValue(lines[i]) == Some(r.0)
    ensures r.1 == UnknownApp || exists i :: 0 <= i < |lines| && Contains(lines[i], "WM_CLASS") && ClassValue(lines[i]) == Some(r.1)
    decreases |lines|
  {
    if lines == [] then (UnknownWindow, UnknownApp)
    else
      var init := lines[..|lines| - 1];
      assert forall i :: 0 <= i < |init| ==> lines[i] == init[i];
      Step(Props(init), lines[|lines| - 1])
  }

  /** Lines that parse as neither a name nor a class leave the defaults in place. */
  lemma {:induction false} DefaultsWithoutProperties(lines: seq<string>)
    requires forall i :: 0 <= i < |lines| ==>
      (Contains(lines[i], "_NET_WM_NAME") ==> QuotedValue(lines[i]).None?) &&
      (!Contains(lines[i], "_NET_WM_NAME") && Contains(lines[i], "WM_CLASS") ==> ClassValue(lines[i]).None?)
    ensures Props(lines) == (UnknownWindow, UnknownApp)
  {
    if lines != [] {
      DefaultsWithoutProperties(lines[..|lines| - 1]);
    }
  }

  /** A name line that parses sets the name, whatever came before; the class is untouched. */
  lemma LastNameLineWins(lines: seq<string>, line: string)
    requires Contains(line, "_NET_WM_NAME") && QuotedValue(line).Some?
    ensures Props(lines + [line]) == (QuotedValue(line).value, Props(lines).1)
  {
    assert (lines + [line])[..|lines|] == lines;
  }

  /** A class line (that is not also a name line) that parses sets the class; the name is untouched. */
  lemma LastClassLineWins(lines: seq<string>, line: string)
    requires !Contains(line, "_NET_WM_NAME") && Contains(line, "WM_CLASS") && ClassValue(line).Some?
    ensures Props(lines + [line]) == (Props(lines).0, ClassValue(line).value)
  {
    assert (lines + [line])[..|lines|] == lines;
  }

  /** `_NET_WM_NAME(UTF8_STRING) = "<title>"` yields the title when it holds no '"'. */
  lemma QuotedValueOfLine(prop: string, title: string)
    requires '"' !in prop && '"' !in title && !EndsWith(title, " = ")
    ensures QuotedValue(prop + ValueSep + (title + "\"")) == Some(title)
  {
    var v := title + "\"";
    NoOccurrenceWithoutLast(prop + ValueSep[..3], ValueSep);
    assert ValueSep[..3] == " = ";
    QuoteOnlyAtEnd(title, ValueSep);
    SplitSecondAfterPrefix(prop, ValueSep, v);
  }

  /** `WM_CLASS(STRING) = "<instance>", "<class>"` yields the class when neither field holds a '"'. */
  lemma ClassValueOfLine(prop: string, instance: string, cls: string)
    requires '"' !in prop && '"' !in instance && '"' !in cls && !EndsWith(cls, ", ")
    ensures ClassValue(prop + ValueSep + (instance + (SecondFieldSep + (cls + "\"")))) == Some(cls)
  {
    var pre := prop + ValueSep + instance;
    var line := prop + ValueSep + (instance + (SecondFieldSep + (cls + "\"")));
    assert line == pre + SecondFieldSep + (cls + "\"");
    assert '"' !in pre[..|prop| + 3] && pre[|prop| + 3] == '"' && '"' !in pre[|prop| + 4..];
    FirstQuoteIsOnlyEarlyOne(pre, |prop| + 3);
    OnlyOneQuoteNoSep(pre + SecondFieldSep[..2], |prop| + 3);
    assert SecondFieldSep[..2] == ", ";
    QuoteOnlyAtEnd(cls, SecondFieldSep);
    SplitSecondAfterPrefix(pre, SecondFieldSep, cls + "\"");
  }

  // ---------------------------------------------------------------------------
  // Helper facts about quotes and separators

  /** "window id # " needs a '#' with two more characters after it. */
  lemma LateHashNoMarker(s: string)
    requires forall k :: 0 <= k < |s| && s[k] == '#' ==> k + 2 > |s|
    ensures !Contains(s, WindowIdMarker)
  {
    forall j | 0 <= j && j + |WindowIdMarker| <= |s|
      ensures !IsAt(s, WindowIdMarker, j)
    {
      assert WindowIdMarker[10] == '#';
      assert s[j..j + |WindowIdMarker|][10] == s[j + 10];
    }
  }

  lemma TrimOfWordThenWhite(id: string, tail: string)
    requires id != [] && NoWhite(id)
    requires tail == [] || IsWhite(tail[0])
    ensures SplitWhitespace(Trim(id + tail)) != [] && SplitWhitespace(Trim(id + tail))[0] == id
  {
    var s := id + tail;
    assert TrimStart(s) == s;
    TrimEndSpec(s);
    var r := TrimEnd(s);
    forall i | |r| <= i < |s|
      ensures IsWhite(s[i])
    {
      assert s[i] == s[|r|..][i - |r|];
    }
    assert !IsWhite(s[|id| - 1]);
    assert |r| >= |id|;
    assert r[..|id|] == id;
    assert r == id + r[|id|..];
    SplitWhitespaceHead(id, r[|id|..]);
  }

  /**
   * In `title + "\""` the only '"' is the last character, so a separator
   * ending in '"' can only occur at the very end, and does not when the title
   * does not end with the rest of the separator.
   */
  lemma QuoteOnlyAtEnd(title: string, sep: string)
    requires '"' !in title && |sep| >= 2 && sep[|sep| - 1] == '"'
    requires !EndsWith(title, sep[..|sep| - 1])
    ensures !Contains(title + "\"", sep)
  {
    var s := title + "\"";
    forall j | 0 <= j && j + |sep| <= |s|
      ensures !IsAt(s, sep, j)
    {
      var w := s[j..j + |sep|];
      if j + |sep| < |s| {
        assert title[j + |sep| - 1] in title;
        assert w[|sep| - 1] == title[j + |sep| - 1] != sep[|sep| - 1];
      } else {
        assert w[..|sep| - 1] == title[|title| - (|sep| - 1)..] != sep[..|sep| - 1];
      }
    }
  }

  lemma FirstQuoteIsOnlyEarlyOne(pre: string, q: nat)
    requires q < |pre| && pre[q] == '"' && '"' !in pre[..q] && '"' !in pre[q + 1..]
    ensures forall k :: 0 <= k < |pre| && pre[k] == '"' ==> k == q
  {
    forall k | 0 <= k < |pre| && k != q
      ensures pre[k] != '"'
    {
      if k < q {
        assert pre[k] == pre[..q][k];
      } else {
        assert pre[k] == pre[q + 1..][k - q - 1];
      }
    }
  }

  /** `, "` needs a '"' two places after a ','; a text whose one '"' has no ',' two places before it holds no `, "`. */
  lemma OnlyOneQuoteNoSep(s: string, q: nat)
    requires forall k :: 0 <= k < |s| && s[k] == '"' ==> k == q
    requires q < |s| && (q < 2 || s[q - 2] != ',')
    ensures !Contains(s, SecondFieldSep)
  {
    forall j | 0 <= j && j + 3 <= |s|
      ensures !IsAt(s, SecondFieldSep, j)
    {
      var w := s[j..j + 3];
      assert w[0] == s[j] && w[2] == s[j + 2];
    }
  }

  // ---------------------------------------------------------------------------
  // The whole query

  /** `get_x11_context` on the two command outputs. */
  function X11Context(rootOutput: Option<string>, windowOutput: Option<string>): (r: Option<(string, string)>)
    ensures rootOutput.None? ==> r.None?
    ensures rootOutput.Some? && !Contains(rootOutput.value, WindowIdMarker) ==> r.None?
  {
    if rootOutput.None? then None
    else
      match WindowId(rootOutput.value)
      case None => None
      case Some(_) => if windowOutput.None? then None else Some(Props(Lines(windowOutput.value)))
  }

  /** The property loop of `get_x11_context`: starts from the defaults and lets each matching line overwrite. */
  method ReadProps(windowOutput: string) returns (name: string, app: string)
    ensures (name, app) == Props(Lines(windowOutput))
  {
    var lines := Lines(windowOutput);
    name, app := UnknownWindow, UnknownApp;
    var i := 0;
    while i < |lines|
      invariant 0 <= i <= |lines|
      invariant (name, app) == Props(lines[..i])
    {
      assert lines[..i + 1][..i] == lines[..i];
      var line := lines[i];
      assert Props(lines[..i + 1]) == Step((name, app), line);
      if Contains(line, "_NET_WM_NAME") {
        var n := QuotedValue(line);
        if n.Some? {
          name := n.value;
        }
      } else if Contains(line, "WM_CLASS") {
        var c := ClassValue(line);
        if c.Some? {
          app := c.value;
        }
      }
      i := i + 1;
    }
    assert lines[..|lines|] == lines;
  }

  method GetX11Context(rootOutput: Option<string>, windowOutput: Option<string>) returns (r: Option<(string, string)>)
    ensures r == X11Context(rootOutput, windowOutput)
  {
    if rootOutput.None? {
      return None;
    }
    var id := WindowId(rootOutput.value);
    if id.None? || windowOutput.None? {
      return None;
    }
    var name, app := ReadProps(windowOutput.value);
    r := Some((name, app));
  }
}
