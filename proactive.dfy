/**
 * The proactive manager: timers that fire once their deadline has passed,
 * a 30-second window that suppresses unsolicited speech, the fixed prompt
 * each event turns into, and the sentence chunker that speaks the streamed
 * reply piece by piece.
 *
 * Time is a `real` number of seconds supplied by the caller; the language
 * model's streamed reply is a function from the prompt to its tokens.
 */
module Proactive {
  import opened Wrappers
  import opened Text
  import RateLimiter

  datatype Event =
    | BatteryLow
    | HighCpu
    | SystemIdle
    | TimerFired(message: string)
    | Notification(title: string, body: string)

  datatype Timer = Timer(deadline: real, message: string)

  /** Unsolicited speech is suppressed for this many seconds after the last one. */
  const SuppressionWindow: real := 30.0

  /** `reset_rate_limit` backdates the last speech by this many seconds. */
  const ResetBackdate: real := 60.0

  /** An event arriving at `now` is dropped when the last speech was less than the window ago. */
  function SuppressedAt(lastSpeech: real, now: real): (r: bool)
    ensures lastSpeech <= now ==> (r <==> now < lastSpeech + SuppressionWindow)
    ensures now < lastSpeech ==> r
  {
    RateLimiter.Elapsed(now, lastSpeech) < SuppressionWindow
  }

  /** After a reset at `resetAt`, no event at that time or later is suppressed. */
  lemma ResetUnsuppresses(resetAt: real, now: real)
    requires now >= resetAt
    ensures !SuppressedAt(resetAt - ResetBackdate, now)
    ensures RateLimiter.Elapsed(now, resetAt - ResetBackdate) >= ResetBackdate
  {
  }

  /** An event admitted at `now` makes every further event suppressed until the window has passed. */
  lemma SpeechOpensWindow(spokeAt: real, now: real)
    requires spokeAt <= now < spokeAt + SuppressionWindow
    ensures SuppressedAt(spokeAt, now)
  {
  }

  // ---------------------------------------------------------------------------
  // Prompts

  const BatteryPrompt := "The system battery is critically low (5%). Warn the user immediately."
  const CpuPrompt := "System CPU usage is abnormally high (>90%). Advise the user."
  const IdlePrompt := "The system has been idle for 10 minutes. Ask if the user is still there."

  /** The prompt sent to the language model for an event. */
  function PromptFor(e: Event): (p: string)
    ensures p != []
  {
    match e
    case BatteryLow => BatteryPrompt
    case HighCpu => CpuPrompt
    case SystemIdle => IdlePrompt
    case TimerFired(m) => "Timer expired: " + (m + ". Alert the user.")
    case Notification(t, b) => "Notification received: '" + (t + ("' - '" + (b + "'. Read it out if important.")))
  }

  /** Two timer prompts are equal only for equal messages: the message can be read back from the prompt. */
  lemma TimerPromptInjective(m1: string, m2: string)
    requires PromptFor(TimerFired(m1)) == PromptFor(TimerFired(m2))
    ensures m1 == m2
  {
    var p1 := PromptFor(TimerFired(m1));
    assert |m1| == |m2|;
    assert m1 == p1[15..15 + |m1|];
  }

  // ---------------------------------------------------------------------------
  // Timer sweep

  /** The timers due at `now` (deadline reached), in list order. */
  function Expired(ts: seq<Timer>, now: real): (r: seq<Timer>)
    ensures |r| <= |ts|
  {
    if ts == [] then []
    else Expired(ts[..|ts| - 1], now) + (if ts[|ts| - 1].deadline <= now then [ts[|ts| - 1]] else [])
  }

  /** The timers not yet due at `now`, in list order. */
  function Pending(ts: seq<Timer>, now: real): (r: seq<Timer>)
    ensures |r| <= |ts|
  {
    if ts == [] then []
    else Pending(ts[..|ts| - 1], now) + (if ts[|ts| - 1].deadline > now then [ts[|ts| - 1]] else [])
  }

  /** A timer is swept out exactly when it is in the list and due; it stays exactly when it is in the list and not due. */
  lemma {:induction false} SweepMembership(ts: seq<Timer>, now: real, t: Timer)
    ensures t in Expired(ts, now) <==> t in ts && t.deadline <= now
    ensures t in Pending(ts, now) <==> t in ts && t.deadline > now
  {
    if ts != [] {
      SweepMembership(ts[..|ts| - 1], now, t);
      assert ts == ts[..|ts| - 1] + [ts[|ts| - 1]];
    }
  }

  /** Every timer ends up in exactly one of the two lists: together they are a permutation of the original. */
  lemma {:induction false} SweepPartitions(ts: seq<Timer>, now: real)
    ensures multiset(Expired(ts, now)) + multiset(Pending(ts, now)) == multiset(ts)
    ensures |Expired(ts, now)| + |Pending(ts, now)| == |ts|
  {
    if ts != [] {
      var init, last := ts[..|ts| - 1], ts[|ts| - 1];
      SweepPartitions(init, now);
      assert ts == init + [last];
      assert multiset(ts) == multiset(init) + multiset{last};
    }
  }

  /** Sweeping twice at the same time finds nothing more: what remains is not due. */
  lemma {:induction false} SweepSettles(ts: seq<Timer>, now: real)
    ensures Expired(Pending(ts, now), now) == []
    ensures Pending(Pending(ts, now), now) == Pending(ts, now)
  {
    if ts != [] {
      SweepSettles(ts[..|ts| - 1], now);
      var p := Pending(ts[..|ts| - 1], now);
      var last := ts[|ts| - 1];
      if last.deadline > now {
        assert Pending(ts, now)[..|Pending(ts, now)| - 1] == p;
      } else {
        assert Pending(ts, now) == p;
      }
    }
  }

  // ---------------------------------------------------------------------------
  // Sentence chunking of the streamed reply

  /** The buffer ends a sentence: its last character is '.', '?', '!' or a newline. */
  function EndsSentence(buffer: string): (r: bool)
    ensures r <==> EndsWith(buffer, ".") || EndsWith(buffer, "?") || EndsWith(buffer, "!") || EndsWith(buffer, "\n")
  {
    buffer != [] && buffer[|buffer| - 1] in {'.', '?', '!', '\n'}
  }

  /** What a flush of `buffer` speaks: its trim, if that is non-empty. */
  function Flush(buffer: string): (r: seq<string>)
    ensures |r| <= 1 && forall c :: c in r ==> c != []
  {
    var t := Trim(buffer);
    if t == [] then [] else [t]
  }

  /** The chunks spoken for the tokens still to come, starting from `buffer`. */
  function Chunks(buffer: string, tokens: seq<string>): (r: seq<string>)
    ensures |r| <= |tokens| + 1
    ensures forall c :: c in r ==> c != []
    decreases |tokens|
  {
    if tokens == [] then Flush(buffer)
    else
      var b := buffer + tokens[0];
      if EndsSentence(b) then Flush(b) + Chunks([], tokens[1..])
      else Chunks(b, tokens[1..])
  }

  /** The text with every whitespace character removed. */
  function Visible(s: string): (r: string)
    ensures |r| <= |s|
  {
    if s == [] then [] else (if IsWhite(s[0]) then [] else [s[0]]) + Visible(s[1..])
  }

  lemma {:induction false} VisibleAppend(a: string, b: string)
    ensures Visible(a + b) == Visible(a) + Visible(b)
    decreases |a|
  {
    if a == [] {
      assert a + b == b;
    } else {
      assert (a + b)[1..] == a[1..] + b;
      VisibleAppend(a[1..], b);
    }
  }

  lemma {:induction false} VisibleTrimStart(s: string)
    ensures Visible(TrimStart(s)) == Visible(s)
    decreases |s|
  {
    if s != [] && IsWhite(s[0]) {
      VisibleTrimStart(s[1..]);
    }
  }

  lemma {:induction false} VisibleTrimEnd(s: string)
    ensures Visible(TrimEnd(s)) == Visible(s)
    decreases |s|
  {
    if s != [] && IsWhite(s[|s| - 1]) {
      var init := s[..|s| - 1];
      VisibleTrimEnd(init);
      assert s == init + [s[|s| - 1]];
      VisibleAppend(init, [s[|s| - 1]]);
      assert Visible([s[|s| - 1]]) == [];
    }
  }

  /** Trimming removes no visible character. */
  lemma VisibleTrim(s: string)
    ensures Visible(Trim(s)) == Visible(s)
  {
    VisibleTrimStart(s);
    VisibleTrimEnd(TrimStart(s));
  }

  lemma VisibleFlush(buffer: string)
    ensures Visible(Concat(Flush(buffer))) == Visible(buffer)
  {
    VisibleTrim(buffer);
    if Trim(buffer) == [] {
      assert Visible(Concat(Flush(buffer))) == [];
    } else {
      assert Flush(buffer) == [Trim(buffer)];
      assert [Trim(buffer)][1..] == [];
      assert Concat(Flush(buffer)) == Trim(buffer) + [];
      assert Trim(buffer) + [] == Trim(buffer);
    }
  }

  lemma ConcatAppend(a: seq<string>, b: seq<string>)
    ensures Concat(a + b) == Concat(a) + Concat(b)
    decreases |a|
  {
    if a == [] {
      assert a + b == b;
    } else {
      assert (a + b)[1..] == a[1..] + b;
      ConcatAppend(a[1..], b);
    }
  }

  /**
   * No visible text of the reply is lost, duplicated or reordered: the chunks,
   * put back together, hold exactly the non-whitespace characters of the buffer
   * and the tokens, in order.
   */
  lemma {:induction false} ChunksKeepText(buffer: string, tokens: seq<string>)
    ensures Visible(Concat(Chunks(buffer, tokens))) == Visible(buffer + Concat(tokens))
    decreases |tokens|
  {
    if tokens == [] {
      VisibleFlush(buffer);
      assert buffer + Concat(tokens) == buffer;
    } else {
      var b := buffer + tokens[0];
      assert buffer + Concat(tokens) == b + Concat(tokens[1..]);
      VisibleAppend(b, Concat(tokens[1..]));
      if EndsSentence(b) {
        ChunksKeepText([], tokens[1..]);
        assert [] + Concat(tokens[1..]) == Concat(tokens[1..]);
        ConcatAppend(Flush(b), Chunks([], tokens[1..]));
        VisibleAppend(Concat(Flush(b)), Concat(Chunks([], tokens[1..])));
        VisibleFlush(b);
      } else {
        ChunksKeepText(b, tokens[1..]);
      }
    }
  }

  /** A spoken chunk is never empty and never starts or ends with whitespace. */
  predicate Speakable(c: string) {
    c != [] && !IsWhite(c[0]) && !IsWhite(c[|c| - 1])
  }

  lemma FlushSpeakable(buffer: string)
    ensures forall c :: c in Flush(buffer) ==> Speakable(c)
  {
    TrimIsCore(buffer);
  }

  /** Every chunk the chunker speaks is non-empty and trimmed. */
  lemma {:induction false} ChunksSpeakable(buffer: string, tokens: seq<string>)
    ensures forall c :: c in Chunks(buffer, tokens) ==> Speakable(c)
    decreases |tokens|
  {
    if tokens == [] {
      FlushSpeakable(buffer);
    } else {
      var b := buffer + tokens[0];
      if EndsSentence(b) {
        FlushSpeakable(b);
        ChunksSpeakable([], tokens[1..]);
      } else {
        ChunksSpeakable(b, tokens[1..]);
      }
    }
  }

  /** A reply that is one sentence in one token is spoken once, as it is. */
  lemma OneSentenceReply(sentence: string)
    requires Speakable(sentence) && EndsSentence(sentence)
    ensures Chunks([], [sentence]) == [sentence]
  {
    assert [] + sentence == sentence;
    TrimPadded([], sentence, []);
    assert [] + sentence + [] == sentence;
    TrimPadded([], [], []);
  }

  /** The reply of the test double, "Testing response.", is spoken exactly once, verbatim. */
  lemma TestingResponseSpokenOnce()
    ensures Chunks([], ["Testing response."]) == ["Testing response."]
  {
    OneSentenceReply("Testing response.");
  }

  /** Speaks a streamed reply: appends each token to a buffer and flushes it at every sentence end, then flushes the rest. */
  method SpeakStream(tokens: seq<string>) returns (spoken: seq<string>)
    ensures spoken == Chunks([], tokens)
  {
    var buffer: string := [];
    spoken := [];
    var i := 0;
    assert tokens[0..] == tokens;
    while i < |tokens|
      invariant 0 <= i <= |tokens|
      invariant spoken + Chunks(buffer, tokens[i..]) == Chunks([], tokens)
    {
      assert tokens[i..][1..] == tokens[i + 1..];
      buffer := buffer + tokens[i];
      if EndsSentence(buffer) {
        var text := Trim(buffer);
        var flushed: seq<string> := if text != [] then [text] else [];
        Regroup(spoken, flushed, Chunks([], tokens[i + 1..]));
        spoken := spoken + flushed;
        buffer := [];
      }
      i := i + 1;
    }
    var rest := Trim(buffer);
    if rest != [] {
      spoken := spoken + [rest];
    } else {
      assert spoken + [] == spoken;
    }
  }

  // ---------------------------------------------------------------------------
  // The manager

  /** What one triggered event produced: the prompt sent (None when suppressed) and the chunks spoken. */
  datatype Outcome = Outcome(prompt: Option<string>, spoken: seq<string>)

  /** The outcome of an event at `now` given the last speech time, before the state changes. */
  function EventOutcome(lastSpeech: real, e: Event, now: real, reply: string -> seq<string>): (o: Outcome)
    ensures SuppressedAt(lastSpeech, now) <==> o.prompt == None
    ensures o.prompt == None ==> o.spoken == []
    ensures o.prompt.Some? ==> o.prompt.value == PromptFor(e) && o.spoken == Chunks([], reply(PromptFor(e)))
  {
    if SuppressedAt(lastSpeech, now) then Outcome(None, [])
    else Outcome(Some(PromptFor(e)), Chunks([], reply(PromptFor(e))))
  }

  /** The clock never runs backwards across the triggers of a round. */
  predicate Nondecreasing(times: seq<real>) {
    forall i, j :: 0 <= i <= j < |times| ==> times[i] <= times[j]
  }

  /**
   * The outcomes of triggering one timer event per due timer, in order. The
   * k-th `trigger_event` reads the clock as `times[k]` (it starts only after
   * every earlier reply has been streamed), and each admitted event makes its
   * own time the last speech.
   */
  function TimerOutcomes(lastSpeech: real, due: seq<Timer>, times: seq<real>, reply: string -> seq<string>): (r: seq<Outcome>)
    requires |times| == |due|
    ensures |r| == |due|
    decreases |due|
  {
    if due == [] then []
    else
      var o := EventOutcome(lastSpeech, TimerFired(due[0].message), times[0], reply);
      [o] + TimerOutcomes(if o.prompt == None then lastSpeech else times[0], due[1..], times[1..], reply)
  }

  /** The last speech in force when the k-th trigger of a round reads the clock. */
  function LastSpeechBefore(lastSpeech: real, times: seq<real>, k: nat): real
    requires k <= |times|
    decreases k
  {
    if k == 0 then lastSpeech
    else
      var p := LastSpeechBefore(lastSpeech, times, k - 1);
      if SuppressedAt(p, times[k - 1]) then p else times[k - 1]
  }

  /** The last speech after k + 1 triggers is the last speech after k triggers of the rest of the round. */
  lemma {:induction false} LastSpeechShift(lastSpeech: real, times: seq<real>, k: nat)
    requires k + 1 <= |times|
    ensures LastSpeechBefore(lastSpeech, times, k + 1)
         == LastSpeechBefore(LastSpeechBefore(lastSpeech, times, 1), times[1..], k)
    decreases k
  {
    if k > 0 {
      LastSpeechShift(lastSpeech, times, k - 1);
      assert times[k] == times[1..][k - 1];
    }
  }

  /**
   * The k-th timer of a round is triggered with the last speech left by the
   * timers before it: it is announced exactly when the window measured from
   * that last speech has passed at `times[k]`.
   */
  lemma {:induction false} RoundOutcomes(lastSpeech: real, due: seq<Timer>, times: seq<real>, reply: string -> seq<string>)
    requires |times| == |due|
    ensures var r := TimerOutcomes(lastSpeech, due, times, reply);
      && |r| == |due|
      && (forall k :: 0 <= k < |due| ==>
            r[k] == EventOutcome(LastSpeechBefore(lastSpeech, times, k), TimerFired(due[k].message), times[k], reply))
      && (forall k :: 0 <= k < |due| ==>
            (r[k].prompt == None <==> SuppressedAt(LastSpeechBefore(lastSpeech, times, k), times[k])))
    decreases |due|
  {
    if due != [] {
      var o := EventOutcome(lastSpeech, TimerFired(due[0].message), times[0], reply);
      var next := LastSpeechBefore(lastSpeech, times, 1);
      assert next == if o.prompt == None then lastSpeech else times[0];
      RoundOutcomes(next, due[1..], times[1..], reply);
      var rest := TimerOutcomes(next, due[1..], times[1..], reply);
      var r := TimerOutcomes(lastSpeech, due, times, reply);
      assert r == [o] + rest;
      forall k | 1 <= k < |due|
        ensures r[k] == EventOutcome(LastSpeechBefore(lastSpeech, times, k), TimerFired(due[k].message), times[k], reply)
      {
        LastSpeechShift(lastSpeech, times, k - 1);
        assert r[k] == rest[k - 1];
        assert due[1..][k - 1] == due[k] && times[1..][k - 1] == times[k];
      }
    }
  }

  /** The last speech only moves forward during a round. */
  lemma {:induction false} LastSpeechGrows(lastSpeech: real, times: seq<real>, j: nat, k: nat)
    requires j <= k <= |times|
    ensures LastSpeechBefore(lastSpeech, times, j) <= LastSpeechBefore(lastSpeech, times, k)
    decreases k
  {
    if j < k {
      LastSpeechGrows(lastSpeech, times, j, k - 1);
    }
  }

  /** With the clock running forward from no earlier than the last speech, the last speech is never after the previous trigger. */
  lemma {:induction false} LastSpeechNotAfter(lastSpeech: real, times: seq<real>, k: nat)
    requires 0 < k <= |times| && Nondecreasing(times) && lastSpeech <= times[0]
    ensures LastSpeechBefore(lastSpeech, times, k) <= times[k - 1]
    decreases k
  {
    if k > 1 {
      LastSpeechNotAfter(lastSpeech, times, k - 1);
    }
  }

  /** While every trigger of the round falls inside the window of the last speech, the whole round is silent. */
  lemma {:induction false} SuppressedRoundSilent(lastSpeech: real, due: seq<Timer>, times: seq<real>, reply: string -> seq<string>)
    requires |times| == |due|
    requires forall k :: 0 <= k < |times| ==> SuppressedAt(lastSpeech, times[k])
    ensures forall o :: o in TimerOutcomes(lastSpeech, due, times, reply) ==> o == Outcome(None, [])
    decreases |due|
  {
    if due != [] {
      assert forall k :: 0 <= k < |times[1..]| ==> times[1..][k] == times[k + 1];
      SuppressedRoundSilent(lastSpeech, due[1..], times[1..], reply);
    }
  }

  /**
   * A round whose triggers all fall within one window announces at most one
   * timer: the first is announced exactly when the window is open at its
   * trigger, and once any timer is announced, every later one is suppressed.
   */
  lemma AtMostOneTimerPerRound(lastSpeech: real, due: seq<Timer>, times: seq<real>, reply: string -> seq<string>)
    requires |times| == |due| && Nondecreasing(times)
    requires |times| > 0 ==> times[|times| - 1] - times[0] < SuppressionWindow
    ensures var r := TimerOutcomes(lastSpeech, due, times, reply);
      && |r| == |due|
      && (|due| > 0 ==> (r[0].prompt == None <==> SuppressedAt(lastSpeech, times[0])))
      && (|due| > 0 && r[0].prompt.Some? ==> r[0].prompt.value == PromptFor(TimerFired(due[0].message)))
      && (forall j, k :: 0 <= j < k < |r| && r[j].prompt.Some? ==> r[k].prompt == None && r[k].spoken == [])
  {
    RoundOutcomes(lastSpeech, due, times, reply);
    var r := TimerOutcomes(lastSpeech, due, times, reply);
    forall j, k | 0 <= j < k < |r| && r[j].prompt.Some?
      ensures r[k].prompt == None && r[k].spoken == []
    {
      assert LastSpeechBefore(lastSpeech, times, j + 1) == times[j];
      LastSpeechGrows(lastSpeech, times, j + 1, k);
      assert times[k] - times[j] < SuppressionWindow;
    }
  }

  /**
   * A later timer whose trigger comes a full window after the previous
   * trigger (for instance because the previous reply took that long to
   * stream) is announced, whatever happened before it.
   */
  lemma LaterTimerAdmittedAfterWait(lastSpeech: real, due: seq<Timer>, times: seq<real>, reply: string -> seq<string>, k: nat)
    requires |times| == |due| && Nondecreasing(times) && 0 < k < |due| && lastSpeech <= times[0]
    requires times[k] - times[k - 1] >= SuppressionWindow
    ensures TimerOutcomes(lastSpeech, due, times, reply)[k].prompt == Some(PromptFor(TimerFired(due[k].message)))
  {
    RoundOutcomes(lastSpeech, due, times, reply);
    LastSpeechNotAfter(lastSpeech, times, k);
  }

  class Manager {
    var lastSpeech: real
    var timers: seq<Timer>

    /** A new manager counts as having just spoken, and has no timers. */
    constructor(now: real)
      ensures lastSpeech == now && timers == []
    {
      lastSpeech := now;
      timers := [];
    }

    predicate Suppressed(now: real)
      reads this
    {
      SuppressedAt(lastSpeech, now)
    }

    /** Schedules a timer `duration` seconds after `now`, after every existing one. */
    method AddTimer(duration: real, message: string, now: real)
      requires duration >= 0.0
      modifies this
      ensures timers == old(timers) + [Timer(now + duration, message)]
      ensures lastSpeech == old(lastSpeech)
    {
      timers := timers + [Timer(now + duration, message)];
    }

    /** Backdates the last speech so that the next event is not suppressed. */
    method ResetRateLimit(now: real)
      modifies this
      ensures lastSpeech == now - ResetBackdate
      ensures timers == old(timers)
      ensures forall later :: later >= now ==> !Suppressed(later)
    {
      lastSpeech := now - ResetBackdate;
      forall later | later >= now
        ensures !Suppressed(later)
      {
        ResetUnsuppresses(now, later);
      }
    }

    /** Removes the due timers from the list and returns them in list order; the rest stay, in order. */
    method SweepTimers(now: real) returns (expired: seq<Timer>)
      modifies this
      ensures expired == Expired(old(timers), now)
      ensures timers == Pending(old(timers), now)
      ensures lastSpeech == old(lastSpeech)
    {
      var all := timers;
      expired := [];
      var remaining: seq<Timer> := [];
      var i := 0;
      while i < |all|
        invariant 0 <= i <= |all|
        invariant expired == Expired(all[..i], now)
        invariant remaining == Pending(all[..i], now)
      {
        assert all[..i + 1][..i] == all[..i];
        if all[i].deadline <= now {
          expired := expired + [all[i]];
        } else {
          remaining := remaining + [all[i]];
        }
        i := i + 1;
      }
      assert all[..|all|] == all;
      timers := remaining;
    }

    /**
     * Handles one event: suppressed events change nothing; an admitted one
     * records `now` as the last speech, sends its prompt and speaks the reply
     * in chunks.
     */
    method TriggerEvent(e: Event, now: real, reply: string -> seq<string>) returns (o: Outcome)
      modifies this
      ensures o == EventOutcome(old(lastSpeech), e, now, reply)
      ensures lastSpeech == if o.prompt == None then old(lastSpeech) else now
      ensures timers == old(timers)
    {
      if Suppressed(now) {
        return Outcome(None, []);
      }
      lastSpeech := now;
      var prompt := PromptFor(e);
      var spoken := SpeakStream(reply(prompt));
      o := Outcome(Some(prompt), spoken);
    }

    /**
     * One round of the timer task: sweeps the timers due at `now`, then
     * triggers a timer event for each of them in order, the k-th one at the
     * clock reading `times[k]`.
     */
    method Tick(now: real, times: seq<real>, reply: string -> seq<string>) returns (outcomes: seq<Outcome>)
      requires |times| == |Expired(timers, now)|
      modifies this
      ensures timers == Pending(old(timers), now)
      ensures outcomes == TimerOutcomes(old(lastSpeech), Expired(old(timers), now), times, reply)
      ensures lastSpeech == LastSpeechBefore(old(lastSpeech), times, |times|)
    {
      var expired := SweepTimers(now);
      outcomes := [];
      var i := 0;
      assert expired[0..] == expired && times[0..] == times;
      while i < |expired|
        invariant 0 <= i <= |expired|
        invariant timers == Pending(old(timers), now)
        invariant lastSpeech == LastSpeechBefore(old(lastSpeech), times, i)
        invariant outcomes + TimerOutcomes(lastSpeech, expired[i..], times[i..], reply)
          == TimerOutcomes(old(lastSpeech), expired, times, reply)
      {
        assert expired[i..][1..] == expired[i + 1..] && times[i..][1..] == times[i + 1..];
        var o := TriggerEvent(TimerFired(expired[i].message), times[i], reply);
        Regroup(outcomes, [o], TimerOutcomes(lastSpeech, expired[i + 1..], times[i + 1..], reply));
        outcomes := outcomes + [o];
        i := i + 1;
      }
      assert outcomes + [] == outcomes;
    }
  }

  /**
   * The integration scenario: a fresh manager, a rate-limit reset, then an
   * idle event whose reply is the single token "Testing response." speaks
   * exactly that text, once.
   */
  method ResetThenTrigger(start: real, resetAt: real, eventAt: real) returns (o: Outcome)
    requires start <= resetAt <= eventAt
    ensures o.prompt == Some(IdlePrompt)
    ensures o.spoken == ["Testing response."]
  {
    var m := new Manager(start);
    m.ResetRateLimit(resetAt);
    o := m.TriggerEvent(SystemIdle, eventAt, (p: string) => ["Testing response."]);
    TestingResponseSpokenOnce();
  }
}
