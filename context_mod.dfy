/**
 * The environmental context handed to the language model: which window
 * query is asked (Wayland first on a Wayland session, falling back to X11;
 * X11 alone otherwise), the default when neither answers, and the prompt
 * fragment the context is rendered into. The two queries' results are
 * parameters, as is `XDG_SESSION_TYPE` (empty when unset).
 */
module EnvironmentalContext {
  import opened Wrappers
  import opened Text

  const DefaultContext := ("Unknown Window", "Unknown App")

  predicate IsWaylandSession(sessionType: string) {
    Contains(ToLower(sessionType), "wayland")
  }

  /** `get_current`: the (window, application) pair. */
  function CurrentContext(sessionType: string, wayland: Option<(string, string)>, x11: Option<(string, string)>): (r: (string, string))
    ensures IsWaylandSession(sessionType) && wayland.Some? ==> r == wayland.value
    ensures IsWaylandSession(sessionType) && wayland.None? && x11.Some? ==> r == x11.value
    ensures !IsWaylandSession(sessionType) ==> r == (if x11.Some? then x11.value else DefaultContext)
    ensures wayland.None? && x11.None? ==> r == DefaultContext
  {
    var ctx := if IsWaylandSession(sessionType) then (if wayland.Some? then wayland else x11) else x11;
    ctx.GetOr(DefaultContext)
  }

  /** Outside a Wayland session the Wayland answer is never consulted. */
  lemma NonWaylandIgnoresWayland(sessionType: string, w1: Option<(string, string)>, w2: Option<(string, string)>,
                                 x11: Option<(string, string)>)
    requires !IsWaylandSession(sessionType)
    ensures CurrentContext(sessionType, w1, x11) == CurrentContext(sessionType, w2, x11)
  {
  }

  /** The session type is compared ignoring letter case. */
  lemma SessionTypeIgnoresCase(sessionType: string, wayland: Option<(string, string)>, x11: Option<(string, string)>)
    ensures CurrentContext(ToUpper(sessionType), wayland, x11) == CurrentContext(sessionType, wayland, x11)
  {
    forall i | 0 <= i < |sessionType|
      ensures LowerChar(UpperChar(sessionType[i])) == LowerChar(sessionType[i])
    {
    }
    assert ToLower(ToUpper(sessionType)) == ToLower(sessionType);
  }

  const FragmentHead := "\n[ENVIRONMENTAL CONTEXT]\nActive Window: "
  const FragmentMiddle := "\nActive Application: "

  /** `to_prompt_fragment`: the header, then the window title, then the application line. */
  function PromptFragment(window: string, app: string): (r: string)
    ensures StartsWith(r, FragmentHead + window + FragmentMiddle)
    ensures EndsWith(r, FragmentMiddle + app + "\n")
  {
    FragmentHead + (window + (FragmentMiddle + (app + "\n")))
  }

  /** A window title without a newline is read back from the fragment: it runs from the header to the first newline after it. */
  lemma FragmentReadsBack(window: string, app: string)
    requires '\n' !in window
    ensures var f := PromptFragment(window, app);
      && f[..|FragmentHead|] == FragmentHead
      && Find(f[|FragmentHead|..], "\n") == Some(|window|)
      && f[|FragmentHead|..|FragmentHead| + |window|] == window
      && f[|FragmentHead| + |window|..] == FragmentMiddle + (app + "\n")
  {
    assert FragmentMiddle[0] == '\n';
    LineAfterHead(FragmentHead, window, FragmentMiddle, app + "\n");
  }

  /** `head`, then a newline-free `window`, then a `tail` starting with a newline: the window is what lies between. */
  lemma LineAfterHead(head: string, window: string, tail: string, end: string)
    requires '\n' !in window && tail != [] && tail[0] == '\n'
    ensures var f := head + (window + (tail + end));
      && f[..|head|] == head
      && Find(f[|head|..], "\n") == Some(|window|)
      && f[|head|..|head| + |window|] == window
      && f[|head| + |window|..] == tail + end
  {
    var f := head + (window + (tail + end));
    var rest := window + (tail + end);
    assert f[|head|..] == rest;
    assert tail == "\n" + tail[1..];
    assert rest == window + "\n" + (tail[1..] + end);
    NoOccurrenceWithoutLast(window, "\n");
    assert "\n"[..0] == [];
    assert window + "\n"[..0] == window;
    FindAfterPrefix(window, "\n", tail[1..] + end);
  }

  /** Two contexts with newline-free window titles render to the same fragment only when they are equal. */
  lemma FragmentInjective(w1: string, a1: string, w2: string, a2: string)
    requires '\n' !in w1 && '\n' !in w2
    requires PromptFragment(w1, a1) == PromptFragment(w2, a2)
    ensures w1 == w2 && a1 == a2
  {
    FragmentReadsBack(w1, a1);
    FragmentReadsBack(w2, a2);
    var f := PromptFragment(w1, a1);
    assert |w1| == |w2|;
    assert FragmentMiddle + (a1 + "\n") == FragmentMiddle + (a2 + "\n");
    assert a1 + "\n" == (FragmentMiddle + (a1 + "\n"))[|FragmentMiddle|..];
    assert a2 + "\n" == (FragmentMiddle + (a2 + "\n"))[|FragmentMiddle|..];
    assert a1 == (a1 + "\n")[..|a1|];
  }
}
