/**
 * The keyword chronicler: long-term memories stored under the 8-byte
 * big-endian encoding of their nanosecond timestamp, and a search that scores
 * each memory by how many query words it contains, ranks by score and then
 * recency, and returns the texts of the best `top_k`.
 *
 * The key-value store is a map from byte keys to values; a value that does
 * not deserialise to a memory is `None`. The store's iteration order is the
 * `items` sequence a search is given.
 */
module Chronicler {
  import opened Wrappers
  import opened Text
  import Sorting

  newtype Byte = b: int | 0 <= b < 256

  const I64Min: int := -0x8000_0000_0000_0000
  const I64Limit: int := 0x8000_0000_0000_0000
  const TwoTo64: int := 0x1_0000_0000_0000_0000

  function Pow256(n: nat): (p: nat)
    ensures p >= 1
  {
    if n == 0 then 1 else 256 * Pow256(n - 1)
  }

  /** The `n` low-order base-256 digits of `u`, most significant first. */
  function BigEndian(u: nat, n: nat): (r: seq<Byte>)
    ensures |r| == n
  {
    if n == 0 then [] else BigEndian(u / 256, n - 1) + [(u % 256) as Byte]
  }

  /** The number whose big-endian digits are `bs`. */
  function FromBigEndian(bs: seq<Byte>): (u: nat)
    ensures u < Pow256(|bs|)
  {
    if bs == [] then 0 else FromBigEndian(bs[..|bs| - 1]) * 256 + bs[|bs| - 1] as nat
  }

  lemma {:induction false} FromBigEndianOfBigEndian(u: nat, n: nat)
    requires u < Pow256(n)
    ensures FromBigEndian(BigEndian(u, n)) == u
  {
    if n > 0 {
      FromBigEndianOfBigEndian(u / 256, n - 1);
      var r := BigEndian(u, n);
      assert r[..n - 1] == BigEndian(u / 256, n - 1);
    }
  }

  lemma {:induction false} BigEndianOfFromBigEndian(bs: seq<Byte>)
    ensures BigEndian(FromBigEndian(bs), |bs|) == bs
  {
    if bs != [] {
      var init := bs[..|bs| - 1];
      BigEndianOfFromBigEndian(init);
      var u := FromBigEndian(bs);
      assert u / 256 == FromBigEndian(init);
      assert u % 256 == bs[|bs| - 1] as int;
      assert bs == init + [bs[|bs| - 1]];
    }
  }

  /** `i64::to_be_bytes`: two's complement in 8 bytes, most significant first. */
  function EncodeI64(ts: int): (key: seq<Byte>)
    requires I64Min <= ts < I64Limit
    ensures |key| == 8
  {
    BigEndian(if ts < 0 then ts + TwoTo64 else ts, 8)
  }

  /** `i64::from_be_bytes` */
  function DecodeI64(key: seq<Byte>): (ts: int)
    requires |key| == 8
    ensures I64Min <= ts < I64Limit
  {
    var u := FromBigEndian(key);
    assert Pow256(8) == TwoTo64;
    if u >= I64Limit then u - TwoTo64 else u
  }

  /** Decoding a stored key gives back the timestamp it was made from. */
  lemma DecodeEncode(ts: int)
    requires I64Min <= ts < I64Limit
    ensures DecodeI64(EncodeI64(ts)) == ts
  {
    assert Pow256(8) == TwoTo64;
    FromBigEndianOfBigEndian(if ts < 0 then ts + TwoTo64 else ts, 8);
  }

  /** Every 8-byte key is the encoding of the timestamp it decodes to. */
  lemma EncodeDecode(key: seq<Byte>)
    requires |key| == 8
    ensures EncodeI64(DecodeI64(key)) == key
  {
    BigEndianOfFromBigEndian(key);
  }

  // ---------------------------------------------------------------------------
  // Scoring and ranking

  datatype StoredMemory = StoredMemory(text: string, timestampNanos: int)

  /** A store entry as iteration yields it: the key, and the value if it deserialises. */
  datatype Entry = Entry(key: seq<Byte>, value: Option<StoredMemory>)

  datatype Match = Match(score: nat, ts: int, text: string)

  /** The lower-cased query split on whitespace, repeats kept. */
  function QueryWords(query: string): (r: seq<string>)
    ensures forall w :: w in r ==> w != [] && NoWhite(w)
  {
    SplitWhitespaceWords(ToLower(query));
    SplitWhitespace(ToLower(query))
  }

  /** How many of `words` (repeats counted) occur in `textLower`. */
  function Score(words: seq<string>, textLower: string): (n: nat)
    ensures n <= |words|
  {
    if words == [] then 0
    else Score(words[..|words| - 1], textLower) + (if Contains(textLower, words[|words| - 1]) then 1 else 0)
  }

  /** A memory scores above zero exactly when it contains at least one query word. */
  lemma {:induction false} ScorePositive(words: seq<string>, textLower: string)
    ensures Score(words, textLower) > 0 <==> exists i :: 0 <= i < |words| && Contains(textLower, words[i])
  {
    if words != [] {
      var init := words[..|words| - 1];
      ScorePositive(init, textLower);
      if exists i :: 0 <= i < |init| && Contains(textLower, init[i]) {
        var i :| 0 <= i < |init| && Contains(textLower, init[i]);
        assert words[i] == init[i];
      }
    }
  }

  /** The score adds up over the query words: every repetition of a contained word counts again. */
  lemma {:induction false} ScoreAppend(a: seq<string>, b: seq<string>, textLower: string)
    ensures Score(a + b, textLower) == Score(a, textLower) + Score(b, textLower)
    decreases |b|
  {
    if b == [] {
      assert a + b == a;
    } else {
      ScoreAppend(a, b[..|b| - 1], textLower);
      assert (a + b)[..|a + b| - 1] == a + b[..|b| - 1];
    }
  }

  /** What one entry contributes: nothing for a key that is not 8 bytes, an unreadable value, or a zero score. */
  function MatchOf(words: seq<string>, e: Entry): (r: Option<Match>)
    ensures r.Some? ==> r.value.score > 0 && |e.key| == 8 && e.value.Some?
    ensures r.Some? ==> r.value.ts == DecodeI64(e.key) && r.value.text == e.value.value.text
  {
    if |e.key| != 8 || e.value.None? then None
    else
      var s := Score(words, ToLower(e.value.value.text));
      if s == 0 then None else Some(Match(s, DecodeI64(e.key), e.value.value.text))
  }

  /** The matches of all entries, in iteration order. */
  function Matches(words: seq<string>, items: seq<Entry>): (ms: seq<Match>)
    ensures |ms| <= |items|
  {
    if items == [] then []
    else
      Matches(words, items[..|items| - 1]) + Listed(MatchOf(words, items[|items| - 1]))
  }

  /** The match an entry yields, as a list of zero or one. */
  function Listed(r: Option<Match>): (l: seq<Match>)
    ensures forall m :: m in l <==> r == Some(m)
  {
    match r case Some(m) => [m] case None => []
  }

  /** A match is listed exactly when some entry yields it. */
  lemma {:induction false} MatchesFromEntries(words: seq<string>, items: seq<Entry>, m: Match)
    ensures m in Matches(words, items) <==> exists i :: 0 <= i < |items| && MatchOf(words, items[i]) == Some(m)
  {
    if items != [] {
      var init, last := items[..|items| - 1], items[|items| - 1];
      MatchesFromEntries(words, init, m);
      assert Matches(words, items) == Matches(words, init) + Listed(MatchOf(words, last));
      if m in Matches(words, init) {
        var i :| 0 <= i < |init| && MatchOf(words, init[i]) == Some(m);
        assert items[i] == init[i];
      }
      if exists i :: 0 <= i < |items| && MatchOf(words, items[i]) == Some(m) {
        var i :| 0 <= i < |items| && MatchOf(words, items[i]) == Some(m);
        if i < |init| {
          assert init[i] == items[i];
        }
      }
    }
  }

  /** The ranking comparator: higher score first, then the more recent timestamp. */
  function RanksBefore(a: Match, b: Match): (r: bool)
    ensures a.score > b.score ==> r
    ensures a.score < b.score ==> !r
    ensures a.score == b.score ==> (r <==> a.ts >= b.ts)
  {
    a.score > b.score || (a.score == b.score && a.ts >= b.ts)
  }

  lemma RanksBeforeIsTotalPreorder()
    ensures Sorting.TotalPreorder(RanksBefore)
  {
  }

  function MinNat(a: nat, b: nat): nat {
    if a <= b then a else b
  }

  /** `search(query, top_k)`: the texts of the `top_k` best-ranked matches. */
  function SearchResult(items: seq<Entry>, query: string, topK: nat): (r: seq<string>)
    ensures |r| <= topK && |r| <= |items|
    ensures forall t :: t in r ==> exists e :: e in items && e.value.Some? && e.value.value.text == t
  {
    var ms := Matches(QueryWords(query), items);
    var ranked := Sorting.SortBy(ms, RanksBefore);
    var r := seq(MinNat(topK, |ranked|), i requires 0 <= i < MinNat(topK, |ranked|) => ranked[i].text);
    forall t | t in r
      ensures exists e :: e in items && e.value.Some? && e.value.value.text == t
    {
      var i :| 0 <= i < |r| && r[i] == t;
      assert ranked[i] in multiset(ms);
      MatchesFromEntries(QueryWords(query), items, ranked[i]);
      var j :| 0 <= j < |items| && MatchOf(QueryWords(query), items[j]) == Some(ranked[i]);
      assert items[j] in items;
    }
    r
  }

  /**
   * The result holds `min(top_k, number of matches)` texts, the texts of a
   * ranking that is a permutation of the matches ordered by score and then
   * recency.
   */
  lemma SearchRanks(items: seq<Entry>, query: string, topK: nat)
    ensures var ms := Matches(QueryWords(query), items);
      var ranked := Sorting.SortBy(ms, RanksBefore);
      && multiset(ranked) == multiset(ms)
      && Sorting.Sorted(ranked, RanksBefore)
      && |SearchResult(items, query, topK)| == MinNat(topK, |ms|)
      && (forall i :: 0 <= i < |SearchResult(items, query, topK)| ==> SearchResult(items, query, topK)[i] == ranked[i].text)
  {
    RanksBeforeIsTotalPreorder();
    Sorting.SortBySorted(Matches(QueryWords(query), items), RanksBefore);
  }

  /** A blank query has no words, so nothing scores and nothing is returned. */
  lemma BlankQueryFindsNothing(items: seq<Entry>, query: string, topK: nat)
    requires AllWhite(query)
    ensures SearchResult(items, query, topK) == []
  {
    assert AllWhite(ToLower(query));
    SplitWhitespaceEmptyIffBlank(ToLower(query));
    NoWordNoMatch(items);
  }

  lemma {:induction false} NoWordNoMatch(items: seq<Entry>)
    ensures Matches([], items) == []
  {
    if items != [] {
      NoWordNoMatch(items[..|items| - 1]);
    }
  }

  /** A memory stored by `add_memory` and hit by a query word is found with its own timestamp and text. */
  lemma StoredMemoryMatches(words: seq<string>, text: string, ts: int)
    requires I64Min <= ts < I64Limit
    requires exists i :: 0 <= i < |words| && Contains(ToLower(text), words[i])
    ensures MatchOf(words, Entry(EncodeI64(ts), Some(StoredMemory(text, ts))))
      == Some(Match(Score(words, ToLower(text)), ts, text))
  {
    ScorePositive(words, ToLower(text));
    DecodeEncode(ts);
  }

  /** The scoring loop of `search`: the entries that yield a match, in iteration order. */
  method CollectMatches(words: seq<string>, items: seq<Entry>) returns (matches: seq<Match>)
    ensures matches == Matches(words, items)
  {
    matches := [];
    var i := 0;
    while i < |items|
      invariant 0 <= i <= |items|
      invariant matches == Matches(words, items[..i])
    {
      assert items[..i + 1][..i] == items[..i];
      var e := items[i];
      assert Matches(words, items[..i + 1]) == matches + Listed(MatchOf(words, e));
      if |e.key| == 8 && e.value.Some? {
        var score := Score(words, ToLower(e.value.value.text));
        if score > 0 {
          matches := matches + [Match(score, DecodeI64(e.key), e.value.value.text)];
        }
      }
      i := i + 1;
    }
    assert items[..|items|] == items;
  }

  // ---------------------------------------------------------------------------
  // The store

  /** `items` lists every entry of `db` exactly once. */
  predicate Enumerates(items: seq<Entry>, db: map<seq<Byte>, Option<StoredMemory>>) {
    && (forall i :: 0 <= i < |items| ==> items[i].key in db && db[items[i].key] == items[i].value)
    && (forall k :: k in db ==> exists i :: 0 <= i < |items| && items[i].key == k)
    && (forall i, j :: 0 <= i < j < |items| ==> items[i].key != items[j].key)
  }

  class Store {
    var db: map<seq<Byte>, Option<StoredMemory>>

    /** Opens a store holding `contents`. */
    constructor(contents: map<seq<Byte>, Option<StoredMemory>>)
      ensures db == contents
    {
      db := contents;
    }

    /**
     * `add_memory`: ignores blank text; otherwise stores the text under the
     * big-endian key of the current time in nanoseconds (0 when the clock is
     * out of range), replacing any memory stored under the same key.
     */
    method AddMemory(text: string, nanos: Option<int>)
      requires nanos.Some? ==> I64Min <= nanos.value < I64Limit
      modifies this
      ensures AllWhite(text) ==> db == old(db)
      ensures !AllWhite(text) ==>
        var ts := nanos.GetOr(0);
        db == old(db)[EncodeI64(ts) := Some(StoredMemory(text, ts))]
    {
      TrimEmptyIffAllWhite(text);
      if Trim(text) == [] {
        return;
      }
      var ts := nanos.GetOr(0);
      db := db[EncodeI64(ts) := Some(StoredMemory(text, ts))];
    }

    /** `search`: scores every entry in iteration order, ranks the matches, and keeps the first `top_k` texts. */
    method Search(query: string, topK: nat, items: seq<Entry>) returns (results: seq<string>)
      requires Enumerates(items, db)
      ensures results == SearchResult(items, query, topK)
    {
      var matches := CollectMatches(QueryWords(query), items);
      var ranked := Sorting.SortBy(matches, RanksBefore);
      var n := MinNat(topK, |ranked|);
      results := seq(n, j requires 0 <= j < n => ranked[j].text);
    }
  }
}
