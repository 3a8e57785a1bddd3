/**
 * The voice-correction store ("fingerprint"): a table from a mis-heard word
 * (lower-cased) to the word the user meant, learned manually or passively,
 * with a bounded undo stack, a bounded command history, a bounded list of
 * commands that could not be understood, and merge/replace import.
 *
 * The store is a class whose fields are the source's `FingerprintData`; every
 * method states the new value of each field in terms of the old ones, through
 * the value-level functions defined first. Saving to disk is not modelled.
 */
module Fingerprint {
  import opened Wrappers
  import opened Text

  datatype Pattern = Pattern(correction: string, count: nat, confidence: real, source: string)

  datatype IgnoredCommand = IgnoredCommand(heard: string, timestamp: string, context: string)

  /** The key an update touched and the pattern it held before (None: the key was absent). */
  datatype UndoAction = UndoAction(heard: string, previous: Option<Pattern>)

  /** The serialised part of the store, as an import file holds it (the undo stack is never serialised). */
  datatype FingerprintData = FingerprintData(
    patterns: map<string, Pattern>,
    commandHistory: seq<string>,
    ignoredCommands: seq<IgnoredCommand>)

  const UndoCap: nat := 50
  const HistoryCap: nat := 100
  const IgnoredCap: nat := 50
  /** How many of the most recent ignored commands are checked for a duplicate. */
  const RecentWindow: nat := 10
  /** Only patterns above this confidence are offered to the language model. */
  const PromptConfidence: real := 0.3

  const ManualSource := "manual"
  const PassiveSource := "passive"

  /** `HashMap::get`, cloned. */
  function Lookup(m: map<string, Pattern>, k: string): (r: Option<Pattern>)
    ensures r.Some? <==> k in m
    ensures r.Some? ==> r.value == m[k]
  {
    if k in m then Some(m[k]) else None
  }

  /** `Vec::push` followed by `if len > cap { remove(0) }`: the oldest entry makes room for the new one. */
  function PushCapped<T>(s: seq<T>, x: T, cap: nat): (r: seq<T>)
    requires cap > 0
    ensures r != [] && r[|r| - 1] == x
    ensures |s| < cap ==> r == s + [x]
    ensures |s| >= cap ==> |r| == |s| && r[..|r| - 1] == s[1..]
    ensures |s| <= cap ==> |r| <= cap
  {
    var pushed := s + [x];
    if |pushed| > cap then pushed[1..] else pushed
  }

  // ---------------------------------------------------------------- update rules

  /** The entry `add_manual_correction` leaves for a key that held `prev`. */
  function ManualUpdate(prev: Option<Pattern>, meantLower: string): (p: Pattern)
    ensures p.correction == meantLower
    ensures prev.None? ==> p == Pattern(meantLower, 1, 0.8, ManualSource)
    ensures prev.Some? && prev.value.correction == meantLower ==>
      && p.count == prev.value.count + 1
      && p.confidence == Min(0.7 + 0.1 * (p.count as real), 1.0)
      && p.source == prev.value.source
    ensures prev.Some? && prev.value.correction != meantLower ==> p == Pattern(meantLower, 1, 0.7, ManualSource)
    ensures 0.7 <= p.confidence <= 1.0
  {
    var entry := prev.GetOr(Pattern(meantLower, 0, 0.0, ManualSource));
    if entry.correction == meantLower then
      var n := entry.count + 1;
      entry.(count := n, confidence := Min(0.7 + n as real * 0.1, 1.0))
    else
      Pattern(meantLower, 1, 0.7, ManualSource)
  }

  /** The entry `add_passive_correction` leaves for a key that held `prev`. */
  function PassiveUpdate(prev: Option<Pattern>, meantLower: string, initialConfidence: real): (p: Pattern)
    ensures p.correction == meantLower
    ensures prev.None? ==> p == Pattern(meantLower, 1, 0.1, PassiveSource)
    ensures prev.Some? && prev.value.correction == meantLower ==>
      && p.count == prev.value.count + 1
      && p.confidence == Min(p.count as real / 10.0, 1.0)
      && p.source == prev.value.source
    ensures prev.Some? && prev.value.correction != meantLower ==>
      p == Pattern(meantLower, 1, initialConfidence, PassiveSource)
  {
    var entry := prev.GetOr(Pattern(meantLower, 0, 0.0, PassiveSource));
    if entry.correction == meantLower then
      var n := entry.count + 1;
      entry.(count := n, confidence := Min(n as real / 10.0, 1.0))
    else
      Pattern(meantLower, 1, initialConfidence, PassiveSource)
  }

  /** The guard both learning paths share: empty words and identity corrections are refused. */
  predicate Learnable(heard: string, meant: string) {
    heard != [] && meant != [] && heard != meant
  }

  /** What `rollback_last_correction` does to the table for one undo entry. */
  function Restore(patterns: map<string, Pattern>, u: UndoAction): (r: map<string, Pattern>)
    ensures Lookup(r, u.heard) == u.previous
    ensures forall k :: k != u.heard ==> Lookup(r, k) == Lookup(patterns, k)
  {
    match u.previous
    case Some(p) => patterns[u.heard := p]
    case None => patterns - {u.heard}
  }

  /** Undoing an update with the entry recorded for it gives back the table as it was. */
  lemma RestoreUndoesUpdate(patterns: map<string, Pattern>, key: string, p: Pattern)
    ensures Restore(patterns[key := p], UndoAction(key, Lookup(patterns, key))) == patterns
  {
    var r := Restore(patterns[key := p], UndoAction(key, Lookup(patterns, key)));
    assert forall k :: Lookup(r, k) == Lookup(patterns, k);
    assert r.Keys == patterns.Keys by {
      forall k ensures k in r <==> k in patterns {
        assert Lookup(r, k) == Lookup(patterns, k);
      }
    }
    assert forall k | k in r :: r[k] == patterns[k] by {
      forall k | k in r ensures r[k] == patterns[k] {
        assert Lookup(r, k) == Lookup(patterns, k);
      }
    }
  }

  /** Merge import: every key of `existing` keeps its pattern; imported keys fill only the gaps. */
  function Merge(existing: map<string, Pattern>, imported: map<string, Pattern>): (r: map<string, Pattern>)
    ensures r.Keys == existing.Keys + imported.Keys
    ensures forall k :: k in existing ==> r[k] == existing[k]
    ensures forall k :: k in imported && k !in existing ==> r[k] == imported[k]
  {
    imported + existing
  }

  /** Merging never loses a pattern and adds exactly the imported keys that were missing. */
  lemma MergeCount(existing: map<string, Pattern>, imported: map<string, Pattern>)
    ensures |Merge(existing, imported)| == |existing| + |imported.Keys - existing.Keys|
  {
    var r := Merge(existing, imported);
    assert r.Keys == existing.Keys + (imported.Keys - existing.Keys);
    assert existing.Keys !! (imported.Keys - existing.Keys);
  }

  // ------------------------------------------------------------- ignored commands

  /** The (up to) ten newest ignored commands, which a new entry must not repeat. */
  function Recent(ignored: seq<IgnoredCommand>): (r: seq<IgnoredCommand>)
    ensures |r| <= RecentWindow && |r| <= |ignored| && r == ignored[|ignored| - |r|..]
    ensures |ignored| >= RecentWindow ==> |r| == RecentWindow
  {
    if |ignored| <= RecentWindow then ignored else ignored[|ignored| - RecentWindow..]
  }

  predicate HeardIn(heard: string, cs: seq<IgnoredCommand>) {
    exists i :: 0 <= i < |cs| && cs[i].heard == heard
  }

  /** `retain(|c| c.heard.to_lowercase() != heard.to_lowercase())` */
  function WithoutHeard(cs: seq<IgnoredCommand>, heardLower: string): (r: seq<IgnoredCommand>)
    ensures |r| <= |cs|
    ensures forall i :: 0 <= i < |r| ==> ToLower(r[i].heard) != heardLower
    ensures forall c :: c in r <==> c in cs && ToLower(c.heard) != heardLower
  {
    if cs == [] then []
    else if ToLower(cs[0].heard) == heardLower then WithoutHeard(cs[1..], heardLower)
    else [cs[0]] + WithoutHeard(cs[1..], heardLower)
  }

  /** Something is removed exactly when some entry matches case-insensitively. */
  lemma {:induction false} WithoutHeardShrinks(cs: seq<IgnoredCommand>, heardLower: string)
    ensures |WithoutHeard(cs, heardLower)| < |cs| <==>
      exists i :: 0 <= i < |cs| && ToLower(cs[i].heard) == heardLower
  {
    if cs != [] {
      WithoutHeardShrinks(cs[1..], heardLower);
      if ToLower(cs[0].heard) != heardLower {
        if exists i :: 0 <= i < |cs| && ToLower(cs[i].heard) == heardLower {
          var i :| 0 <= i < |cs| && ToLower(cs[i].heard) == heardLower;
          assert cs[1..][i - 1] == cs[i];
        }
      }
    }
  }

  // ------------------------------------------------------------ correction hints

  /** One line of the corrections prompt: a word as spoken, what it likely means, and how sure the store is. */
  datatype Hint = Hint(word: string, correction: string, confidence: real)

  /**
   * The hints `get_corrections_prompt` collects for `words`, given the keys
   * already hinted: each lower-cased word whose pattern is confident enough,
   * once per key, in the order of the text.
   */
  function HintsFrom(patterns: map<string, Pattern>, words: seq<string>, matched: set<string>): (r: seq<Hint>)
    ensures |r| <= |words|
    ensures forall h :: h in r ==> h.word in words && h.confidence > PromptConfidence
  {
    if words == [] then []
    else
      var key := ToLower(words[0]);
      if key in matched then HintsFrom(patterns, words[1..], matched)
      else if key in patterns && patterns[key].confidence > PromptConfidence then
        [Hint(words[0], patterns[key].correction, patterns[key].confidence)]
          + HintsFrom(patterns, words[1..], matched + {key})
      else HintsFrom(patterns, words[1..], matched)
  }

  predicate DistinctKeys(hs: seq<Hint>) {
    forall i, j :: 0 <= i < j < |hs| ==> ToLower(hs[i].word) != ToLower(hs[j].word)
  }

  /** Every hint names a confident pattern, and no key is hinted twice (nor one already matched). */
  lemma {:induction false} HintsAreConfidentAndDistinct(patterns: map<string, Pattern>, words: seq<string>, matched: set<string>)
    ensures forall h :: h in HintsFrom(patterns, words, matched) ==>
      ToLower(h.word) in patterns && ToLower(h.word) !in matched
      && h.correction == patterns[ToLower(h.word)].correction
      && h.confidence == patterns[ToLower(h.word)].confidence > PromptConfidence
    ensures DistinctKeys(HintsFrom(patterns, words, matched))
  {
    if words != [] {
      var key := ToLower(words[0]);
      if key in matched || !(key in patterns && patterns[key].confidence > PromptConfidence) {
        HintsAreConfidentAndDistinct(patterns, words[1..], matched);
      } else {
        HintsAreConfidentAndDistinct(patterns, words[1..], matched + {key});
        var rest := HintsFrom(patterns, words[1..], matched + {key});
        var hs := [Hint(words[0], patterns[key].correction, patterns[key].confidence)] + rest;
        forall i, j | 0 <= i < j < |hs| ensures ToLower(hs[i].word) != ToLower(hs[j].word) {
          assert hs[j] == rest[j - 1] && hs[j] in rest;
          assert ToLower(hs[j].word) !in matched + {key};
          if i > 0 {
            assert hs[i] == rest[i - 1];
          } else {
            assert ToLower(hs[i].word) == key;
          }
        }
        assert HintsFrom(patterns, words, matched) == hs;
      }
    }
  }

  /** There are no hints exactly when no word of the text has a confident pattern outside `matched`. */
  lemma {:induction false} HintsEmptyIff(patterns: map<string, Pattern>, words: seq<string>, matched: set<string>)
    ensures HintsFrom(patterns, words, matched) == [] <==>
      forall i :: 0 <= i < |words| ==>
        var k := ToLower(words[i]); k in matched || k !in patterns || patterns[k].confidence <= PromptConfidence
  {
    if words != [] {
      var key := ToLower(words[0]);
      HintsEmptyIff(patterns, words[1..], matched);
      if !(key in matched || key !in patterns || patterns[key].confidence <= PromptConfidence) {
        assert HintsFrom(patterns, words, matched) != [];
      } else {
        forall i | 1 <= i < |words| ensures words[i] == words[1..][i - 1] { }
      }
    }
  }

  /** One step of `HintsFrom` at position `i` of the text. */
  lemma HintsStep(patterns: map<string, Pattern>, words: seq<string>, i: nat, matched: set<string>)
    requires i < |words|
    ensures var key := ToLower(words[i]);
      HintsFrom(patterns, words[i..], matched) ==
        if key !in matched && key in patterns && patterns[key].confidence > PromptConfidence then
          [Hint(words[i], patterns[key].correction, patterns[key].confidence)]
            + HintsFrom(patterns, words[i + 1..], matched + {key})
        else HintsFrom(patterns, words[i + 1..], matched)
  {
    assert words[i..][0] == words[i] && words[i..][1..] == words[i + 1..];
  }

  /** `{:.0}` of a percentage, rounded half up (the source's float formatting rounds ties to even). */
  function Percent(confidence: real): (r: string)
    ensures r != []
    ensures confidence >= 0.0 ==>
      AllDigits(r) && confidence * 100.0 - 0.5 < DigitsValue(r) as real <= confidence * 100.0 + 0.5
    ensures confidence * 100.0 + 0.5 < 0.0 ==> r[0] == '-' && AllDigits(r[1..])
  {
    var x := (confidence * 100.0 + 0.5).Floor;
    if x >= 0 then
      DigitsOfNatToString(x);
      NatToString(x)
    else "-" + NatToString(-x)
  }

  function HintLine(h: Hint): string {
    "- \"" + h.word + "\" likely means \"" + h.correction + "\" (confidence: " + Percent(h.confidence) + "%)"
  }

  function HintLines(hs: seq<Hint>): (r: seq<string>)
    ensures |r| == |hs| && forall i :: 0 <= i < |hs| ==> r[i] == HintLine(hs[i])
  {
    if hs == [] then [] else [HintLine(hs[0])] + HintLines(hs[1..])
  }

  const CorrectionsHeader := "\nPERSONALIZED CORRECTIONS (learned from this user's voice):\n"

  /** The prompt block for a list of hints: empty when there are none. */
  function RenderPrompt(hs: seq<Hint>): (r: string)
    ensures r == [] <==> hs == []
    ensures hs != [] ==> StartsWith(r, CorrectionsHeader) && EndsWith(r, "\n")
  {
    if hs == [] then []
    else CorrectionsHeader + Join(HintLines(hs), "\n") + "\n"
  }

  /** The merge loop of `import_from_path`: each imported key not already present is inserted. */
  method MergeMissing(existing: map<string, Pattern>, incoming: map<string, Pattern>) returns (merged: map<string, Pattern>)
    ensures merged == Merge(existing, incoming)
  {
    merged := existing;
    var todo := incoming.Keys;
    while todo != {}
      invariant todo <= incoming.Keys
      invariant merged.Keys == existing.Keys + (incoming.Keys - todo)
      invariant forall k :: k in existing ==> merged[k] == existing[k]
      invariant forall k :: k in incoming && k !in todo && k !in existing ==> merged[k] == incoming[k]
      decreases todo
    {
      var heard :| heard in todo;
      if heard !in merged {
        merged := merged[heard := incoming[heard]];
      }
      todo := todo - {heard};
    }
  }

  // ---------------------------------------------------------------- statistics

  function ManualKeys(patterns: map<string, Pattern>): set<string> {
    set k | k in patterns && patterns[k].source == ManualSource
  }

  function OtherKeys(patterns: map<string, Pattern>): set<string> {
    set k | k in patterns && patterns[k].source != ManualSource
  }

  /** `get_stats`: (manual patterns, every other pattern, history length); the first two add up to the table size. */
  function Stats(d: FingerprintData): (r: (nat, nat, nat))
    ensures r.0 + r.1 == |d.patterns|
    ensures r.2 == |d.commandHistory|
  {
    var m := ManualKeys(d.patterns);
    var o := OtherKeys(d.patterns);
    assert m + o == d.patterns.Keys && m !! o;
    (|m|, |o|, |d.commandHistory|)
  }

  // ---------------------------------------------------------------- the store

  /** Whitespace-separated words of a text, as a set. */
  function WordSet(s: string): set<string> {
    set w | w in SplitWhitespace(s)
  }

  class Store {
    var patterns: map<string, Pattern>
    var commandHistory: seq<string>
    var ignoredCommands: seq<IgnoredCommand>
    var undoStack: seq<UndoAction>

    ghost predicate Valid()
      reads this
    {
      |undoStack| <= UndoCap
    }

    /** The serialised view of the store. */
    function Data(): FingerprintData
      reads this
    {
      FingerprintData(patterns, commandHistory, ignoredCommands)
    }

    /** `Fingerprint::new`: the parsed file when there is one, else empty data; the undo stack starts empty. */
    constructor (loaded: Option<FingerprintData>)
      ensures Valid() && undoStack == []
      ensures Data() == loaded.GetOr(FingerprintData(map[], [], []))
    {
      var d := loaded.GetOr(FingerprintData(map[], [], []));
      patterns := d.patterns;
      commandHistory := d.commandHistory;
      ignoredCommands := d.ignoredCommands;
      undoStack := [];
    }

    /** Records the current entry of `key` on the undo stack, dropping the oldest record beyond 50. */
    method PushUndo(key: string)
      requires Valid()
      modifies this`undoStack
      ensures Valid()
      ensures undoStack == PushCapped(old(undoStack), UndoAction(key, Lookup(patterns, key)), UndoCap)
    {
      undoStack := undoStack + [UndoAction(key, Lookup(patterns, key))];
      if |undoStack| > UndoCap {
        undoStack := undoStack[1..];
      }
    }

    /** `add_manual_correction` */
    method AddManualCorrection(heard: string, meant: string) returns (ok: bool)
      requires Valid()
      modifies this
      ensures Valid()
      ensures ok == Learnable(heard, meant)
      ensures !ok ==> unchanged(this)
      ensures ok ==>
        var key := ToLower(heard);
        && patterns == old(patterns)[key := ManualUpdate(Lookup(old(patterns), key), ToLower(meant))]
        && undoStack == PushCapped(old(undoStack), UndoAction(key, Lookup(old(patterns), key)), UndoCap)
      ensures commandHistory == old(commandHistory) && ignoredCommands == old(ignoredCommands)
    {
      if heard == [] || meant == [] || heard == meant {
        return false;
      }
      var key := ToLower(heard);
      PushUndo(key);
      patterns := patterns[key := ManualUpdate(Lookup(patterns, key), ToLower(meant))];
      ok := true;
    }

    /** `add_passive_correction`; `initialConfidence` is the configured passive_confidence_threshold. */
    method AddPassiveCorrection(heard: string, meant: string, initialConfidence: real)
      requires Valid()
      modifies this
      ensures Valid()
      ensures !Learnable(heard, meant) ==> unchanged(this)
      ensures Learnable(heard, meant) ==>
        var key := ToLower(heard);
        && patterns == old(patterns)[key := PassiveUpdate(Lookup(old(patterns), key), ToLower(meant), initialConfidence)]
        && undoStack == PushCapped(old(undoStack), UndoAction(key, Lookup(old(patterns), key)), UndoCap)
        && commandHistory == PushCapped(old(commandHistory), meant, HistoryCap)
      ensures ignoredCommands == old(ignoredCommands)
    {
      if heard == [] || meant == [] || heard == meant {
        return;
      }
      var key := ToLower(heard);
      PushUndo(key);
      patterns := patterns[key := PassiveUpdate(Lookup(patterns, key), ToLower(meant), initialConfidence)];
      commandHistory := commandHistory + [meant];
      if |commandHistory| > HistoryCap {
        commandHistory := commandHistory[1..];
      }
    }

    /**
     * `passive_learn`: when exactly one word of the recognised text is missing
     * from the final text and exactly one word of the final text is new, that
     * pair is learned passively; otherwise nothing changes.
     */
    method PassiveLearn(asrHeard: string, finalText: string, initialConfidence: real)
      requires Valid()
      modifies this
      ensures Valid()
      ensures var errors := WordSet(asrHeard) - WordSet(finalText);
        var corrections := WordSet(finalText) - WordSet(asrHeard);
        if |errors| == 1 && |corrections| == 1 then
          exists e, c ::
            && errors == {e} && corrections == {c}
            && patterns == old(patterns)[ToLower(e) := PassiveUpdate(Lookup(old(patterns), ToLower(e)), ToLower(c), initialConfidence)]
            && undoStack == PushCapped(old(undoStack), UndoAction(ToLower(e), Lookup(old(patterns), ToLower(e))), UndoCap)
            && commandHistory == PushCapped(old(commandHistory), c, HistoryCap)
        else unchanged(this)
      ensures ignoredCommands == old(ignoredCommands)
    {
      var errors := WordSet(asrHeard) - WordSet(finalText);
      var corrections := WordSet(finalText) - WordSet(asrHeard);
      if |errors| == 1 && |corrections| == 1 {
        var e :| e in errors;
        var c :| c in corrections;
        assert errors == {e} by {
          assert |errors - {e}| == 0;
        }
        assert corrections == {c} by {
          assert |corrections - {c}| == 0;
        }
        // The two sets are disjoint parts of different texts' words, so e != c.
        assert e in WordSet(asrHeard) && e !in WordSet(finalText) && c in WordSet(finalText);
        SplitWhitespaceWords(asrHeard);
        SplitWhitespaceWords(finalText);
        var w := SplitWhitespace(asrHeard);
        var i :| 0 <= i < |w| && w[i] == e;
        var v := SplitWhitespace(finalText);
        var j :| 0 <= j < |v| && v[j] == c;
        assert Learnable(e, c);
        ghost var before, undoBefore, historyBefore := patterns, undoStack, commandHistory;
        AddPassiveCorrection(e, c, initialConfidence);
        assert patterns == before[ToLower(e) := PassiveUpdate(Lookup(before, ToLower(e)), ToLower(c), initialConfidence)];
        assert undoStack == PushCapped(undoBefore, UndoAction(ToLower(e), Lookup(before, ToLower(e))), UndoCap);
        assert commandHistory == PushCapped(historyBefore, c, HistoryCap);
      }
    }

    /** `rollback_last_correction`: pops the newest undo record and puts its key back as it was. */
    method RollbackLastCorrection() returns (ok: bool)
      requires Valid()
      modifies this
      ensures Valid()
      ensures ok == (old(undoStack) != [])
      ensures !ok ==> unchanged(this)
      ensures ok ==>
        && undoStack == old(undoStack)[..|old(undoStack)| - 1]
        && patterns == Restore(old(patterns), old(undoStack)[|old(undoStack)| - 1])
      ensures commandHistory == old(commandHistory) && ignoredCommands == old(ignoredCommands)
    {
      if undoStack == [] {
        return false;
      }
      var undo := undoStack[|undoStack| - 1];
      undoStack := undoStack[..|undoStack| - 1];
      match undo.previous {
        case Some(prev) => patterns := patterns[undo.heard := prev];
        case None => patterns := patterns - {undo.heard};
      }
      ok := true;
    }

    /** `get_corrections_prompt`: one hint per distinct confident word of `text`, in text order. */
    method GetCorrectionsPrompt(text: string) returns (prompt: string)
      ensures prompt == RenderPrompt(HintsFrom(patterns, SplitWhitespace(text), {}))
    {
      var words := SplitWhitespace(text);
      var parts: seq<Hint> := [];
      var matched: set<string> := {};
      var i := 0;
      assert words[0..] == words;
      while i < |words|
        invariant 0 <= i <= |words|
        invariant parts + HintsFrom(patterns, words[i..], matched) == HintsFrom(patterns, words, {})
      {
        var key := ToLower(words[i]);
        HintsStep(patterns, words, i, matched);
        if key !in matched && key in patterns && patterns[key].confidence > PromptConfidence {
          parts := parts + [Hint(words[i], patterns[key].correction, patterns[key].confidence)];
          matched := matched + {key};
        }
        i := i + 1;
      }
      assert words[i..] == [];
      assert parts == HintsFrom(patterns, words, {});
      prompt := RenderPrompt(parts);
    }

    /** `get_stats` */
    function GetStats(): (r: (nat, nat, nat))
      reads this
      ensures r.0 + r.1 == |patterns| && r.2 == |commandHistory|
    {
      Stats(Data())
    }

    /**
     * The in-memory part of `import_from_path`: `imported` is the parsed file
     * (None when it could not be read or parsed, which yields 0 and changes
     * nothing). Merge fills missing keys only; replace takes the file's data
     * and an empty undo stack. The result is the number of patterns after.
     */
    method ImportData(imported: Option<FingerprintData>, merge: bool) returns (count: nat)
      requires Valid()
      modifies this
      ensures Valid()
      ensures imported.None? ==> count == 0 && unchanged(this)
      ensures imported.Some? && merge ==>
        && patterns == Merge(old(patterns), imported.value.patterns)
        && commandHistory == old(commandHistory) && ignoredCommands == old(ignoredCommands)
        && undoStack == old(undoStack)
      ensures imported.Some? && !merge ==> Data() == imported.value && undoStack == []
      ensures imported.Some? ==> count == |patterns|
    {
      if imported.None? {
        return 0;
      }
      var incoming := imported.value.patterns;
      if merge {
        patterns := MergeMissing(patterns, incoming);
      } else {
        patterns := incoming;
        commandHistory := imported.value.commandHistory;
        ignoredCommands := imported.value.ignoredCommands;
        undoStack := [];
      }
      count := |patterns|;
    }

    /**
     * `add_ignored_command`: an empty text, or one equal to any of the ten
     * newest entries, is skipped; otherwise it is appended and the oldest entry
     * goes beyond 50. `timestamp` is the formatted local time.
     */
    method AddIgnoredCommand(heard: string, context: string, timestamp: string)
      requires Valid()
      modifies this`ignoredCommands
      ensures heard == [] || HeardIn(heard, Recent(old(ignoredCommands))) ==> ignoredCommands == old(ignoredCommands)
      ensures heard != [] && !HeardIn(heard, Recent(old(ignoredCommands))) ==>
        ignoredCommands == PushCapped(old(ignoredCommands), IgnoredCommand(heard, timestamp, context), IgnoredCap)
    {
      if heard == [] {
        return;
      }
      if HeardIn(heard, Recent(ignoredCommands)) {
        return;
      }
      var entry := IgnoredCommand(heard, timestamp, context);
      ignoredCommands := ignoredCommands + [entry];
      if |ignoredCommands| > IgnoredCap {
        ignoredCommands := ignoredCommands[1..];
      }
      assert ignoredCommands == PushCapped(old(ignoredCommands), entry, IgnoredCap);
    }

    /** `clear_ignored_commands`: empties the list and returns how many entries it held. */
    method ClearIgnoredCommands() returns (count: nat)
      modifies this`ignoredCommands
      ensures count == |old(ignoredCommands)| && ignoredCommands == []
    {
      count := |ignoredCommands|;
      ignoredCommands := [];
    }

    /**
     * `correct_ignored_command`: removes every ignored entry equal to `heard`
     * up to case; when one was removed, learns `heard -> meant` manually
     * (whatever that returns) and answers true.
     */
    method CorrectIgnoredCommand(heard: string, meant: string) returns (found: bool)
      requires Valid()
      modifies this
      ensures Valid()
      ensures found <==> exists i :: 0 <= i < |old(ignoredCommands)| && ToLower(old(ignoredCommands)[i].heard) == ToLower(heard)
      ensures ignoredCommands == WithoutHeard(old(ignoredCommands), ToLower(heard))
      ensures !found ==> patterns == old(patterns) && undoStack == old(undoStack)
      ensures found && Learnable(heard, meant) ==>
        && patterns == old(patterns)[ToLower(heard) := ManualUpdate(Lookup(old(patterns), ToLower(heard)), ToLower(meant))]
        && undoStack == PushCapped(old(undoStack), UndoAction(ToLower(heard), Lookup(old(patterns), ToLower(heard))), UndoCap)
      ensures found && !Learnable(heard, meant) ==> patterns == old(patterns) && undoStack == old(undoStack)
      ensures commandHistory == old(commandHistory)
    {
      var before := ignoredCommands;
      ignoredCommands := WithoutHeard(ignoredCommands, ToLower(heard));
      WithoutHeardShrinks(before, ToLower(heard));
      found := |ignoredCommands| != |before|;
      if found {
        var _ := AddManualCorrection(heard, meant);
      }
    }
  }

  /** Learning a correction and rolling it back leaves the table as it was (manual path). */
  lemma ManualThenRollback(patterns: map<string, Pattern>, heard: string, meant: string)
    ensures var key := ToLower(heard);
      Restore(patterns[key := ManualUpdate(Lookup(patterns, key), ToLower(meant))],
              UndoAction(key, Lookup(patterns, key))) == patterns
  {
    var key := ToLower(heard);
    RestoreUndoesUpdate(patterns, key, ManualUpdate(Lookup(patterns, key), ToLower(meant)));
  }

  /** A client run: learn a manual correction, roll it back, and the table is as before. */
  method LearnAndUndo(s: Store, heard: string, meant: string)
    requires s.Valid()
    modifies s
    ensures s.Valid()
    ensures s.patterns == old(s.patterns)
    ensures |old(s.undoStack)| < UndoCap ==> s.undoStack == old(s.undoStack)
  {
    var learned := s.AddManualCorrection(heard, meant);
    if learned {
      ghost var before := old(s.patterns);
      ghost var key := ToLower(heard);
      var undone := s.RollbackLastCorrection();
      RestoreUndoesUpdate(before, key, ManualUpdate(Lookup(before, key), ToLower(meant)));
    }
  }

  /**
   * A client run: when the final text corrects exactly one word of what was
   * heard, the passively learned pattern is undone by one rollback, and the
   * table is as before.
   */
  method PassiveLearnAndUndo(s: Store, asrHeard: string, finalText: string, initialConfidence: real)
    requires s.Valid()
    requires |WordSet(asrHeard) - WordSet(finalText)| == 1 && |WordSet(finalText) - WordSet(asrHeard)| == 1
    modifies s
    ensures s.Valid()
    ensures s.patterns == old(s.patterns)
    ensures |old(s.undoStack)| < UndoCap ==> s.undoStack == old(s.undoStack)
    ensures s.ignoredCommands == old(s.ignoredCommands)
  {
    s.PassiveLearn(asrHeard, finalText, initialConfidence);
    ghost var e, c :| s.patterns == old(s.patterns)[ToLower(e) := PassiveUpdate(Lookup(old(s.patterns), ToLower(e)), ToLower(c), initialConfidence)]
      && s.undoStack == PushCapped(old(s.undoStack), UndoAction(ToLower(e), Lookup(old(s.patterns), ToLower(e))), UndoCap);
    var undone := s.RollbackLastCorrection();
    RestoreUndoesUpdate(old(s.patterns), ToLower(e), PassiveUpdate(Lookup(old(s.patterns), ToLower(e)), ToLower(c), initialConfidence));
  }
}
