/**
 * The Wayland window context: the compositor chosen from the desktop
 * environment variables, the recursive search for the focused node in a
 * sway tree, and the readings of the Hyprland, GNOME and KDE command outputs.
 * Environment values and command outputs are parameters; a JSON document is
 * given already parsed (None when it did not parse or the command failed).
 */
module WaylandContext {
  import opened Wrappers
  import opened Text

  datatype Compositor = Sway | Hyprland | Gnome | Kde | Unsupported

  /** The compositor `get_wayland_context` asks, from `XDG_CURRENT_DESKTOP` and `GDMSESSION` (empty when unset). */
  function Detect(desktop: string, session: string): (c: Compositor)
    ensures Contains(ToUpper(desktop), "SWAY") ==> c == Sway
    ensures c == Unsupported <==>
      !Contains(ToUpper(desktop), "SWAY") && !Contains(ToUpper(desktop), "HYPRLAND")
      && !Contains(ToUpper(desktop), "GNOME") && !Contains(ToUpper(session), "GNOME")
      && !Contains(ToUpper(desktop), "KDE")
  {
    var d := ToUpper(desktop);
    var s := ToUpper(session);
    if Contains(d, "SWAY") then Sway
    else if Contains(d, "HYPRLAND") then Hyprland
    else if Contains(d, "GNOME") || Contains(s, "GNOME") then Gnome
    else if Contains(d, "KDE") then Kde
    else Unsupported
  }

  /** Detection ignores letter case: lower-casing the variables changes nothing. */
  lemma DetectIgnoresCase(desktop: string, session: string)
    ensures Detect(ToLower(desktop), ToLower(session)) == Detect(desktop, session)
  {
    UpperForgetsCase(desktop);
    UpperForgetsCase(session);
  }

  /** A desktop naming several compositors goes to the first of SWAY, HYPRLAND, GNOME, KDE it names. */
  lemma DetectPriority(desktop: string, session: string)
    ensures Contains(ToUpper(desktop), "HYPRLAND") && !Contains(ToUpper(desktop), "SWAY") ==> Detect(desktop, session) == Hyprland
    ensures Contains(ToUpper(session), "GNOME") && !Contains(ToUpper(desktop), "SWAY") && !Contains(ToUpper(desktop), "HYPRLAND")
      ==> Detect(desktop, session) == Gnome
    ensures Detect(desktop, session) == Kde ==> Contains(ToUpper(desktop), "KDE") && !Contains(ToUpper(session), "GNOME")
  {
  }

  // ---------------------------------------------------------------------------
  // The sway tree

  /**
   * A node of `swaymsg -t get_tree`: `focused` is whether the field is the
   * boolean true; the string fields are None when missing or not strings;
   * the child lists are empty when missing or not arrays.
   */
  datatype Node = Node(
    focused: bool,
    name: Option<string>,
    appId: Option<string>,
    windowClass: Option<string>,
    nodes: seq<Node>,
    floatingNodes: seq<Node>)

  /** The (title, application) reported for a focused node. */
  function Describe(n: Node): (r: (string, string))
    ensures r.0 == (if n.name.Some? then n.name.value else "Unknown")
    ensures n.appId.Some? ==> r.1 == n.appId.value
    ensures n.appId.None? && n.windowClass.Some? ==> r.1 == n.windowClass.value
    ensures n.appId.None? && n.windowClass.None? ==> r.1 == "Unknown"
  {
    (n.name.GetOr("Unknown"), if n.appId.Some? then n.appId.value else n.windowClass.GetOr("Unknown"))
  }

  /** The first result that is present. */
  function FirstSome<T>(rs: seq<Option<T>>): (r: Option<T>)
    ensures r.None? <==> forall i :: 0 <= i < |rs| ==> rs[i].None?
    ensures r.Some? ==> exists i :: 0 <= i < |rs| && rs[i] == r && forall k :: 0 <= k < i ==> rs[k].None?
  {
    if rs == [] then None
    else if rs[0].Some? then rs[0]
    else
      var r := FirstSome(rs[1..]);
      assert forall i :: 1 <= i < |rs| ==> rs[i] == rs[1..][i - 1];
      r
  }

  /** `find_focused`: the node itself if focused, else the first hit among `nodes`, then among `floating_nodes`. */
  function FindFocused(n: Node): (r: Option<(string, string)>)
    ensures n.focused ==> r == Some(Describe(n))
    ensures !n.focused && n.nodes == [] && n.floatingNodes == [] ==> r.None?
    ensures !n.focused && n.nodes != [] && FindFocused(n.nodes[0]).Some? ==> r == FindFocused(n.nodes[0])
    decreases n, 1
  {
    if n.focused then Some(Describe(n))
    else FirstSome(TiledResults(n) + FloatingResults(n))
  }

  /** The search result of each tiled child, in order. */
  function TiledResults(n: Node): (rs: seq<Option<(string, string)>>)
    ensures |rs| == |n.nodes|
    decreases n, 0
  {
    seq(|n.nodes|, i requires 0 <= i < |n.nodes| => FindFocused(n.nodes[i]))
  }

  /** The search result of each floating child, in order. */
  function FloatingResults(n: Node): (rs: seq<Option<(string, string)>>)
    ensures |rs| == |n.floatingNodes|
    decreases n, 0
  {
    seq(|n.floatingNodes|, i requires 0 <= i < |n.floatingNodes| => FindFocused(n.floatingNodes[i]))
  }

  /** Some node of the tree is focused. */
  predicate AnyFocused(n: Node)
    decreases n
  {
    n.focused
    || (exists i :: 0 <= i < |n.nodes| && AnyFocused(n.nodes[i]))
    || (exists i :: 0 <= i < |n.floatingNodes| && AnyFocused(n.floatingNodes[i]))
  }

  /** `find_focused` finds nothing exactly when no node of the tree is focused. */
  lemma {:induction false} FindFocusedNoneIffNoFocus(n: Node)
    ensures FindFocused(n).None? <==> !AnyFocused(n)
    decreases n
  {
    if !n.focused {
      var a, b := TiledResults(n), FloatingResults(n);
      forall i | 0 <= i < |n.nodes|
        ensures a[i].None? <==> !AnyFocused(n.nodes[i])
      {
        FindFocusedNoneIffNoFocus(n.nodes[i]);
      }
      forall i | 0 <= i < |n.floatingNodes|
        ensures b[i].None? <==> !AnyFocused(n.floatingNodes[i])
      {
        FindFocusedNoneIffNoFocus(n.floatingNodes[i]);
      }
      assert forall i :: 0 <= i < |a| ==> (a + b)[i] == a[i];
      assert forall i :: 0 <= i < |b| ==> (a + b)[|a| + i] == b[i];
    }
  }

  /** A focused node's own description wins over anything below it. */
  lemma FocusedRootWins(n: Node)
    requires n.focused
    ensures FindFocused(n) == Some(Describe(n))
  {
  }

  /** The first tiled child whose subtree has a focused node decides, ahead of all floating nodes. */
  lemma TiledBeforeFloating(n: Node, i: nat)
    requires !n.focused && i < |n.nodes| && FindFocused(n.nodes[i]).Some?
    requires forall k :: 0 <= k < i ==> FindFocused(n.nodes[k]).None?
    ensures FindFocused(n) == FindFocused(n.nodes[i])
  {
    var a, b := TiledResults(n), FloatingResults(n);
    assert forall k :: 0 <= k <= i ==> (a + b)[k] == FindFocused(n.nodes[k]);
    var r := FirstSome(a + b);
    assert r.Some?;
    var w :| 0 <= w < |a + b| && (a + b)[w] == r && forall k :: 0 <= k < w ==> (a + b)[k].None?;
    assert w == i;
  }

  /** Results that are all absent can be skipped. */
  lemma {:induction false} FirstSomeAfterNones<T>(a: seq<Option<T>>, b: seq<Option<T>>)
    requires forall k :: 0 <= k < |a| ==> a[k].None?
    ensures FirstSome(a + b) == FirstSome(b)
    decreases |a|
  {
    if a != [] {
      assert (a + b)[0] == a[0];
      assert (a + b)[1..] == a[1..] + b;
      FirstSomeAfterNones(a[1..], b);
    } else {
      assert a + b == b;
    }
  }

  /** With no focused node under the tiled children, the floating nodes decide. */
  lemma FloatingWhenNoTiledFocus(n: Node)
    requires !n.focused && forall k :: 0 <= k < |n.nodes| ==> FindFocused(n.nodes[k]).None?
    ensures FindFocused(n) == FirstSome(FloatingResults(n))
  {
    FirstSomeAfterNones(TiledResults(n), FloatingResults(n));
  }

  // ---------------------------------------------------------------------------
  // Hyprland, GNOME, KDE

  /** `hyprctl activewindow -j`, parsed: its "title" and "class" fields when they are strings. */
  datatype HyprWindow = HyprWindow(title: Option<string>, windowClass: Option<string>)

  function HyprlandContext(w: Option<HyprWindow>): (r: Option<(string, string)>)
    ensures r.None? <==> w.None?
    ensures r.Some? ==> r.value.0 == w.value.title.GetOr("Unknown") && r.value.1 == w.value.windowClass.GetOr("Unknown")
  {
    match w
    case None => None
    case Some(j) => Some((j.title.GetOr("Unknown"), j.windowClass.GetOr("Unknown")))
  }

  /** The `Eval` reply of GNOME Shell: a result only for a reply holding "(true,", titled by the text between the first two '"'. */
  function GnomeContext(out: string): (r: Option<(string, string)>)
    ensures r.Some? <==> Contains(out, "(true,")
    ensures r.Some? ==> r.value.1 == "GNOME App"
  {
    if Contains(out, "(true,") then Some((SplitSecond(out, "\"").GetOr("Unknown"), "GNOME App"))
    else None
  }

  /** The usual reply `(true, "<title>")` gives back the title, for a title without '"'. */
  lemma GnomeTitleOfReply(title: string)
    requires '"' !in title
    ensures GnomeContext("(true, \"" + (title + "\")\n")) == Some((title, "GNOME App"))
  {
    var out := "(true, \"" + (title + "\")\n");
    assert out == "(true," + (" \"" + (title + "\")\n"));
    ContainsAtStart("(true,", " \"" + (title + "\")\n"));
    var rest := title + "\")\n";
    assert out == "(true, " + "\"" + rest;
    NoOccurrenceWithoutLast("(true, ", "\"");
    NoOccurrenceWithoutLast(title, "\"");
    FindAfterPrefix("(true, ", "\"", rest);
    assert out[8..] == rest;
    FindAfterPrefix(title, "\"", ")\n");
    assert rest == title + "\"" + ")\n";
  }

  /** KDE via `kdotool`: when it is installed and runs, its trimmed output is the title. */
  function KdeContext(kdotoolOutput: Option<string>): (r: Option<(string, string)>)
    ensures r.None? <==> kdotoolOutput.None?
  {
    match kdotoolOutput
    case None => None
    case Some(out) => Some((Trim(out), "KDE App"))
  }

  /** `get_wayland_context`: the reading of the detected compositor's command, or None for an unsupported one. */
  function WaylandContext(desktop: string, session: string, swayTree: Option<Node>, hypr: Option<HyprWindow>,
                          gnomeReply: Option<string>, kdotoolOutput: Option<string>): (r: Option<(string, string)>)
    ensures Detect(desktop, session) == Unsupported ==> r.None?
    ensures Detect(desktop, session) == Sway ==> r == (if swayTree.None? then None else FindFocused(swayTree.value))
  {
    match Detect(desktop, session)
    case Sway => if swayTree.None? then None else FindFocused(swayTree.value)
    case Hyprland => HyprlandContext(hypr)
    case Gnome => if gnomeReply.None? then None else GnomeContext(gnomeReply.value)
    case Kde => KdeContext(kdotoolOutput)
    case Unsupported => None
  }
}
