/**
 * The cortex's short-term memory (a bounded queue of observed texts, evicting
 * the oldest) and the prompt it assembles for the language model: the
 * short-term context, then the recalled long-term memories under a header
 * when there are any, then the user's prompt.
 */
module Cortex {
  import opened Wrappers
  import opened Text

  /** How many entries the history can hold: `max_size`, except that a size of 0 still keeps the newest entry. */
  function Capacity(maxSize: nat): (c: nat)
    ensures c >= 1 && (maxSize >= 1 ==> c == maxSize)
  {
    if maxSize == 0 then 1 else maxSize
  }

  /** The newest `n` entries of `s` (all of them when there are fewer). */
  function Newest<T>(s: seq<T>, n: nat): (r: seq<T>)
    ensures |r| <= n && |r| <= |s|
  {
    if |s| <= n then s else s[|s| - n..]
  }

  /** The history after one `add`: the front entry goes when the history is at `maxSize` or over, then `text` is appended. */
  function Pushed(history: seq<string>, maxSize: nat, text: string): (r: seq<string>)
    ensures r != [] && r[|r| - 1] == text
    ensures |history| < maxSize ==> r == history + [text]
  {
    (if |history| >= maxSize && history != [] then history[1..] else history) + [text]
  }

  /** One `add` on a history within capacity keeps exactly the newest entries that fit, the new text last. */
  lemma PushedKeepsNewest(history: seq<string>, maxSize: nat, text: string)
    requires |history| <= Capacity(maxSize)
    ensures Pushed(history, maxSize, text) == Newest(history + [text], Capacity(maxSize))
  {
    var s := history + [text];
    if |history| >= maxSize && history != [] {
      assert |history| == Capacity(maxSize);
      assert s[|s| - Capacity(maxSize)..] == history[1..] + [text];
    }
  }

  /** The history after adding each of `texts` in turn. */
  function PushAll(history: seq<string>, maxSize: nat, texts: seq<string>): seq<string>
    decreases |texts|
  {
    if texts == [] then history
    else Pushed(PushAll(history, maxSize, texts[..|texts| - 1]), maxSize, texts[|texts| - 1])
  }

  lemma NewestSnoc<T>(s: seq<T>, n: nat, x: T)
    requires n >= 1
    ensures Newest(Newest(s, n) + [x], n) == Newest(s + [x], n)
  {
    if |s| > n {
      var t := s + [x];
      var w := Newest(s, n) + [x];
      assert w[|w| - n..] == t[|t| - n..];
    }
  }

  /**
   * However many texts are added, the history is the newest `Capacity(maxSize)`
   * of everything seen, in the order it was added.
   */
  lemma {:induction false} PushAllKeepsNewest(history: seq<string>, maxSize: nat, texts: seq<string>)
    requires |history| <= Capacity(maxSize)
    ensures PushAll(history, maxSize, texts) == Newest(history + texts, Capacity(maxSize))
    decreases |texts|
  {
    if texts == [] {
      assert history + texts == history;
    } else {
      var init, last := texts[..|texts| - 1], texts[|texts| - 1];
      PushAllKeepsNewest(history, maxSize, init);
      PushedNewest(PushAll(history, maxSize, init), history + init, maxSize, last);
      SplitLast(history, texts);
    }
  }

  /** Adding to the newest entries of `seen` keeps the newest entries of `seen` and the new text. */
  lemma PushedNewest(before: seq<string>, seen: seq<string>, maxSize: nat, text: string)
    requires before == Newest(seen, Capacity(maxSize))
    ensures Pushed(before, maxSize, text) == Newest(seen + [text], Capacity(maxSize))
  {
    PushedKeepsNewest(before, maxSize, text);
    NewestSnoc(seen, Capacity(maxSize), text);
  }

  /** The short-term memory: the recent observations, oldest first. */
  class Memory {
    var history: seq<string>
    const maxSize: nat

    ghost predicate Valid()
      reads this
    {
      |history| <= Capacity(maxSize)
    }

    /** An empty memory sized from the `memory_size` setting. */
    constructor(maxSize: nat)
      ensures Valid() && history == [] && this.maxSize == maxSize
    {
      history := [];
      this.maxSize := maxSize;
    }

    /** `add`: evicts the oldest entry when full, then appends `text`. */
    method Add(text: string)
      requires Valid()
      modifies this
      ensures Valid()
      ensures history == Pushed(old(history), maxSize, text)
    {
      if |history| >= maxSize && history != [] {
        history := history[1..];
      }
      history := history + [text];
      PushedKeepsNewest(old(history), maxSize, text);
    }

    /** `get_context`: the entries joined by newlines, oldest first. */
    function Context(): (r: string)
      reads this
      ensures history == [] ==> r == []
      ensures history != [] ==> StartsWith(r, history[0]) && EndsWith(r, history[|history| - 1])
    {
      JoinEnds(history, "\n");
      Join(history, "\n")
    }
  }

  /** Adding to a history that is not yet full extends the context by a newline and the new text. */
  lemma ContextGrows(history: seq<string>, maxSize: nat, text: string)
    requires |history| < maxSize
    ensures Join(Pushed(history, maxSize, text), "\n") ==
      if history == [] then text else Join(history, "\n") + "\n" + text
  {
    assert Pushed(history, maxSize, text) == history + [text];
    if history != [] {
      JoinSnoc(history, text, "\n");
    } else {
      assert history + [text] == [text];
    }
  }

  // ---------------------------------------------------------------------------
  // Prompt assembly

  const LongTermHeader := "\n--- LONG-TERM MEMORIES ---\n"
  const DisabledReply := "AI is disabled."

  /** One recalled memory as a context line. */
  function MemoryLine(m: string): string {
    "- " + (m + "\n")
  }

  /** The recalled memories as context lines, in the order recalled. */
  function MemoryLines(ms: seq<string>): string
    decreases |ms|
  {
    if ms == [] then [] else MemoryLines(ms[..|ms| - 1]) + MemoryLine(ms[|ms| - 1])
  }

  /** The memory lines read front to back: the first recalled memory comes first. */
  lemma {:induction false} MemoryLinesCons(m: string, ms: seq<string>)
    ensures MemoryLines([m] + ms) == MemoryLine(m) + MemoryLines(ms)
    decreases |ms|
  {
    if ms == [] {
      assert ([m] + ms)[..0] == [];
    } else {
      var init, last := ms[..|ms| - 1], ms[|ms| - 1];
      var whole := [m] + ms;
      assert whole[..|whole| - 1] == [m] + init && whole[|whole| - 1] == last;
      calc {
        MemoryLines(whole);
        MemoryLines([m] + init) + MemoryLine(last);
        { MemoryLinesCons(m, init); }
        (MemoryLine(m) + MemoryLines(init)) + MemoryLine(last);
        { Regroup(MemoryLine(m), MemoryLines(init), MemoryLine(last)); }
        MemoryLine(m) + (MemoryLines(init) + MemoryLine(last));
      }
    }
  }

  /** The context sent with a query: the short-term context, then the recalled memories under a header if the search found any. */
  function QueryContext(shortTerm: string, recalled: Result<seq<string>, string>): (r: string)
    ensures StartsWith(r, shortTerm)
    ensures recalled.Err? ==> r == shortTerm
    ensures recalled.Ok? && recalled.value != [] ==> StartsWith(r, shortTerm + LongTermHeader)
  {
    if recalled.Ok? && recalled.value != [] then shortTerm + (LongTermHeader + MemoryLines(recalled.value))
    else shortTerm
  }

  /** The header appears exactly when the search succeeded with at least one memory; otherwise the context is the short-term one alone. */
  lemma HeaderOnlyWithMemories(shortTerm: string, recalled: Result<seq<string>, string>)
    ensures QueryContext(shortTerm, recalled) == shortTerm <==> !(recalled.Ok? && recalled.value != [])
    ensures recalled.Ok? && recalled.value != [] ==>
      QueryContext(shortTerm, recalled)[|shortTerm|..|shortTerm| + |LongTermHeader|] == LongTermHeader
  {
    if recalled.Ok? && recalled.value != [] {
      var c := QueryContext(shortTerm, recalled);
      assert |c| > |shortTerm|;
      assert c[|shortTerm|..|shortTerm| + |LongTermHeader|] == LongTermHeader;
    }
  }

  /** The prompt text sent to the model. */
  function PromptText(context: string, prompt: string): (r: string)
    ensures StartsWith(r, "Context:\n" + context)
    ensures EndsWith(r, "\n\nUser: " + prompt)
  {
    "Context:\n" + (context + ("\n\nUser: " + prompt))
  }

  /** The context and the user's prompt sit at fixed places in the prompt text, so both can be read back. */
  lemma PromptTextParts(context: string, prompt: string)
    ensures var p := PromptText(context, prompt);
      && |p| == 17 + |context| + |prompt|
      && p[9..9 + |context|] == context
      && p[9 + |context|..17 + |context|] == "\n\nUser: "
      && p[17 + |context|..] == prompt
  {
  }

  /** Prompt texts of equal length prompts are equal only for equal contexts and prompts. */
  lemma PromptTextInjective(c1: string, q1: string, c2: string, q2: string)
    requires |q1| == |q2| && PromptText(c1, q1) == PromptText(c2, q2)
    ensures c1 == c2 && q1 == q2
  {
    PromptTextParts(c1, q1);
    PromptTextParts(c2, q2);
  }

  datatype QueryOutcome =
    | Replied(reply: string)   // answered without contacting the model
    | Sent(prompt: string)     // the prompt text posted to the model

  /**
   * Builds the query context as the `Query` and `QueryStream` arms do:
   * starts from the short-term context when the memory lock is taken
   * (`memoryLocked`), from the empty text when the lock is poisoned, and
   * appends the header and one line per recalled memory.
   */
  method BuildContext(memory: Memory, memoryLocked: bool, recalled: Result<seq<string>, string>)
    returns (context: string)
    ensures memoryLocked ==> context == QueryContext(memory.Context(), recalled)
    ensures !memoryLocked ==> context == QueryContext("", recalled)
  {
    context := if memoryLocked then memory.Context() else "";
    if recalled.Ok? && recalled.value != [] {
      var ms := recalled.value;
      var lines: string := [];
      var i := 0;
      while i < |ms|
        invariant 0 <= i <= |ms|
        invariant lines == MemoryLines(ms[..i])
      {
        assert ms[..i + 1][..i] == ms[..i];
        lines := lines + MemoryLine(ms[i]);
        i := i + 1;
      }
      assert ms[..|ms|] == ms;
      context := context + (LongTermHeader + lines);
    }
  }

  /**
   * A query: with AI disabled the non-streaming query replies "AI is
   * disabled." and builds nothing; otherwise (and always for the streaming
   * query, which has no such gate) the assembled prompt is sent. The
   * short-term context is empty when the memory lock is poisoned
   * (`memoryLocked` false). On the non-streaming path `prompt` stands for
   * the already-sanitized prompt, which the source uses for both the search
   * and the prompt text; the streaming path uses the raw prompt.
   */
  method Query(memory: Memory, memoryLocked: bool, prompt: string, streaming: bool, aiEnabled: bool,
               recalled: Result<seq<string>, string>) returns (out: QueryOutcome)
    ensures !streaming && !aiEnabled ==> out == Replied(DisabledReply)
    ensures (streaming || aiEnabled) && memoryLocked ==>
              out == Sent(PromptText(QueryContext(memory.Context(), recalled), prompt))
    ensures (streaming || aiEnabled) && !memoryLocked ==>
              out == Sent(PromptText(QueryContext("", recalled), prompt))
  {
    if !streaming && !aiEnabled {
      return Replied(DisabledReply);
    }
    var context := BuildContext(memory, memoryLocked, recalled);
    out := Sent(PromptText(context, prompt));
  }
}
