/**
 * The handful of Rust `str` operations the daemon's parsers are built from,
 * stated over `string` (= `seq<char>`): trimming and whitespace splitting on
 * Unicode White_Space, `lines`, substring search, `split(..).nth(1)`,
 * prefix/suffix tests, ASCII case mapping, joining, and `u32` parsing.
 */
module Text {
  import opened Wrappers

  /** The Unicode White_Space property, which `char::is_whitespace`, `trim` and `split_whitespace` use. */
  predicate IsWhite(c: char) {
    ('\t' <= c <= '\r') || c == ' ' || c == '\U{85}' || c == '\U{A0}' || c == '\U{1680}'
    || ('\U{2000}' <= c <= '\U{200A}') || c == '\U{2028}' || c == '\U{2029}'
    || c == '\U{202F}' || c == '\U{205F}' || c == '\U{3000}'
  }

  predicate NoWhite(s: string) {
    forall i :: 0 <= i < |s| ==> !IsWhite(s[i])
  }

  predicate AllWhite(s: string) {
    forall i :: 0 <= i < |s| ==> IsWhite(s[i])
  }

  /** `str::trim_start`: drops the leading whitespace, keeps the rest. */
  function TrimStart(s: string): (r: string)
    ensures |r| <= |s|
  {
    if s != [] && IsWhite(s[0]) then TrimStart(s[1..]) else s
  }

  /** What `TrimStart` cuts is a whitespace prefix, and what it keeps starts with non-whitespace. */
  lemma {:induction false} TrimStartSpec(s: string)
    ensures var r := TrimStart(s);
      && r == s[|s| - |r|..]
      && (r == [] || !IsWhite(r[0]))
      && AllWhite(s[..|s| - |r|])
  {
    if s != [] && IsWhite(s[0]) {
      TrimStartSpec(s[1..]);
      var r := TrimStart(s);
      assert s[..|s| - |r|] == [s[0]] + s[1..][..|s| - 1 - |r|];
    }
  }

  /** `str::trim_end`: drops the trailing whitespace, keeps the rest. */
  function TrimEnd(s: string): (r: string)
    ensures |r| <= |s|
  {
    if s != [] && IsWhite(s[|s| - 1]) then TrimEnd(s[..|s| - 1]) else s
  }

  /** What `TrimEnd` cuts is a whitespace suffix, and what it keeps ends with non-whitespace. */
  lemma {:induction false} TrimEndSpec(s: string)
    ensures var r := TrimEnd(s);
      && r == s[..|r|]
      && (r == [] || !IsWhite(r[|r| - 1]))
      && AllWhite(s[|r|..])
  {
    if s != [] && IsWhite(s[|s| - 1]) {
      TrimEndSpec(s[..|s| - 1]);
      var r := TrimEnd(s);
      assert s[|r|..] == s[..|s| - 1][|r|..] + [s[|s| - 1]];
    }
  }

  /** `str::trim` */
  function Trim(s: string): (r: string)
    ensures |r| <= |s|
  {
    TrimEnd(TrimStart(s))
  }

  /** Trimming yields a slice of the input with only whitespace cut away, and a slice that starts and ends with non-whitespace. */
  lemma TrimIsCore(s: string)
    ensures exists a, b :: 0 <= a <= b <= |s| && Trim(s) == s[a..b] && AllWhite(s[..a]) && AllWhite(s[b..])
    ensures Trim(s) == [] || (!IsWhite(Trim(s)[0]) && !IsWhite(Trim(s)[|Trim(s)| - 1]))
  {
    var t := TrimStart(s);
    TrimStartSpec(s);
    TrimEndSpec(t);
    var a := |s| - |t|;
    var r := TrimEnd(t);
    var b := a + |r|;
    assert t == s[a..];
    assert r == t[..|r|];
    assert s[a..b] == r;
    assert s[b..] == t[|r|..];
    assert Trim(s) == r;
    assert AllWhite(s[..a]) && AllWhite(s[b..]);
    if r != [] {
      assert r[0] == t[0];
    }
  }

  /** A string trims to nothing exactly when it is all whitespace. */
  lemma TrimEmptyIffAllWhite(s: string)
    ensures Trim(s) == [] <==> AllWhite(s)
  {
    TrimIsCore(s);
    var t := TrimStart(s);
    TrimStartSpec(s);
    TrimEndSpec(t);
    if Trim(s) == [] {
      assert s == s[..|s| - |t|] + t;
      assert t == t[0..];
    } else {
      var a, b :| 0 <= a <= b <= |s| && Trim(s) == s[a..b] && AllWhite(s[..a]) && AllWhite(s[b..]);
      assert s[a] == Trim(s)[0];
    }
  }

  /** Whitespace in front of a text is all `trim_start` removes from it. */
  lemma {:induction false} TrimStartSkipsWhite(ws: string, s: string)
    requires AllWhite(ws)
    ensures TrimStart(ws + s) == TrimStart(s)
    decreases |ws|
  {
    if ws != [] {
      assert (ws + s)[1..] == ws[1..] + s;
      TrimStartSkipsWhite(ws[1..], s);
    } else {
      assert ws + s == s;
    }
  }

  /** Whitespace after a text is all `trim_end` removes from it. */
  lemma {:induction false} TrimEndSkipsWhite(s: string, ws: string)
    requires AllWhite(ws)
    ensures TrimEnd(s + ws) == TrimEnd(s)
    decreases |ws|
  {
    if ws != [] {
      assert (s + ws)[..|s + ws| - 1] == s + ws[..|ws| - 1];
      TrimEndSkipsWhite(s, ws[..|ws| - 1]);
    } else {
      assert s + ws == s;
    }
  }

  /** Trimming a core that starts and ends with non-whitespace, padded with whitespace, gives the core back. */
  lemma TrimPadded(before: string, core: string, after: string)
    requires AllWhite(before) && AllWhite(after)
    requires core == [] || (!IsWhite(core[0]) && !IsWhite(core[|core| - 1]))
    ensures Trim(before + core + after) == core
  {
    assert before + core + after == before + (core + after);
    TrimStartSkipsWhite(before, core + after);
    if core == [] {
      assert core + after == after;
      TrimStartSkipsWhite(after, []);
      assert after + [] == after;
    } else {
      assert TrimStart(core + after) == core + after;
    }
    TrimEndSkipsWhite(core, after);
  }

  /** Length of the longest prefix of `s` that holds no whitespace. */
  function WordLen(s: string): (n: nat)
    ensures n <= |s| && NoWhite(s[..n])
    ensures n < |s| ==> IsWhite(s[n])
  {
    if s == [] || IsWhite(s[0]) then 0 else 1 + WordLen(s[1..])
  }

  /** `str::split_whitespace`: the maximal runs of non-whitespace, in order. */
  function SplitWhitespace(s: string): (r: seq<string>)
    decreases |s|
  {
    var t := TrimStart(s);
    if t == [] then []
    else
      TrimStartSpec(s);
      var n := WordLen(t);
      [t[..n]] + SplitWhitespace(t[n..])
  }

  /** Every word `split_whitespace` yields is non-empty and holds no whitespace. */
  lemma {:induction false} SplitWhitespaceWords(s: string)
    ensures forall i :: 0 <= i < |SplitWhitespace(s)| ==> SplitWhitespace(s)[i] != [] && NoWhite(SplitWhitespace(s)[i])
    decreases |s|
  {
    var t := TrimStart(s);
    if t != [] {
      TrimStartSpec(s);
      var n := WordLen(t);
      SplitWhitespaceWords(t[n..]);
    }
  }

  /** A word, whitespace, then more text: the word comes first, then the words of the rest. */
  lemma SplitWhitespaceCons(word: string, ws: string, rest: string)
    requires word != [] && NoWhite(word)
    requires ws != [] && AllWhite(ws)
    ensures SplitWhitespace(word + ws + rest) == [word] + SplitWhitespace(rest)
  {
    var s := word + ws + rest;
    assert TrimStart(s) == s;
    WordLenOfWord(word, ws + rest);
    assert s == word + (ws + rest);
    assert s[|word|..] == ws + rest;
    TrimStartSkipsWhite(ws, rest);
  }

  /** Leading whitespace does not change the words. */
  lemma SplitWhitespaceSkipsWhite(ws: string, s: string)
    requires AllWhite(ws)
    ensures SplitWhitespace(ws + s) == SplitWhitespace(s)
  {
    TrimStartSkipsWhite(ws, s);
  }

  /** A word followed by nothing or by whitespace is the first word. */
  lemma SplitWhitespaceHead(word: string, rest: string)
    requires word != [] && NoWhite(word)
    requires rest == [] || IsWhite(rest[0])
    ensures SplitWhitespace(word + rest) != [] && SplitWhitespace(word + rest)[0] == word
  {
    var s := word + rest;
    assert TrimStart(s) == s;
    WordLenOfWord(word, rest);
    assert s[..|word|] == word;
  }

  /** A text that is one word splits into just that word. */
  lemma SplitWhitespaceSingle(word: string)
    requires word != [] && NoWhite(word)
    ensures SplitWhitespace(word) == [word]
  {
    assert TrimStart(word) == word;
    WordLenOfWord(word, []);
    assert word + [] == word;
    assert word[|word|..] == [];
  }

  lemma {:induction false} WordLenOfWord(word: string, rest: string)
    requires NoWhite(word)
    requires rest == [] || IsWhite(rest[0])
    ensures WordLen(word + rest) == |word|
    decreases |word|
  {
    if word != [] {
      assert (word + rest)[1..] == word[1..] + rest;
      WordLenOfWord(word[1..], rest);
    } else {
      assert word + rest == rest;
    }
  }

  /** The first word `split_whitespace` would yield, or "" when there is none. */
  function FirstWord(s: string): string {
    var t := TrimStart(s);
    t[..WordLen(t)]
  }

  lemma FirstWordIsFirstSplit(s: string)
    ensures SplitWhitespace(s) != [] ==> SplitWhitespace(s)[0] == FirstWord(s)
  {
  }

  /** `split_whitespace` finds no word exactly when the text is blank. */
  lemma SplitWhitespaceEmptyIffBlank(s: string)
    ensures SplitWhitespace(s) == [] <==> AllWhite(s)
  {
    var t := TrimStart(s);
    TrimStartSpec(s);
    assert s == s[..|s| - |t|] + t;
  }

  /** Strips one trailing carriage return, as `str::lines` does before a line feed. */
  function StripCR(s: string): string {
    if s != [] && s[|s| - 1] == '\r' then s[..|s| - 1] else s
  }

  /**
   * `str::lines`: split after every '\n'; a "\r\n" ending loses its '\r' too;
   * a final line without '\n' is kept as it is; no empty line after a final '\n'.
   */
  function Lines(s: string): (r: seq<string>)
    ensures forall i :: 0 <= i < |r| ==> '\n' !in r[i]
    decreases |s|
  {
    match IndexOf(s, '\n')
    case None => if s == [] then [] else [s]
    case Some(k) => [StripCR(s[..k])] + Lines(s[k + 1..])
  }

  /** `sub` occurs in `s` at offset `j`. */
  predicate IsAt(s: string, sub: string, j: int) {
    0 <= j && j + |sub| <= |s| && s[j..j + |sub|] == sub
  }

  /** The first offset, at or after `from`, at which `sub` occurs in `s`. */
  function FindFrom(s: string, sub: string, from: nat): (r: Option<nat>)
    ensures r.Some? ==> from <= r.value && IsAt(s, sub, r.value)
    ensures r.Some? ==> forall j :: from <= j < r.value ==> !IsAt(s, sub, j)
    ensures r.None? ==> forall j :: from <= j ==> !IsAt(s, sub, j)
    decreases |s| - from
  {
    if from + |sub| > |s| then None
    else if s[from..from + |sub|] == sub then Some(from)
    else FindFrom(s, sub, from + 1)
  }

  /** `str::find`: the first offset at which `sub` occurs. */
  function Find(s: string, sub: string): (r: Option<nat>)
    ensures r.Some? ==> IsAt(s, sub, r.value) && forall j :: 0 <= j < r.value ==> !IsAt(s, sub, j)
    ensures r.None? ==> forall j :: !IsAt(s, sub, j)
  {
    FindFrom(s, sub, 0)
  }

  /** `str::contains` */
  predicate Contains(s: string, sub: string) {
    Find(s, sub).Some?
  }

  lemma ContainsAtStart(sub: string, rest: string)
    ensures Contains(sub + rest, sub)
  {
    assert IsAt(sub + rest, sub, 0);
  }

  lemma ContainsAfter(a: string, b: string, sub: string)
    requires Contains(b, sub)
    ensures Contains(a + b, sub)
  {
    var j := Find(b, sub).value;
    assert (a + b)[|a| + j..|a| + j + |sub|] == b[j..j + |sub|];
    assert IsAt(a + b, sub, |a| + j);
  }

  /** A text without the last character of `sub` cannot contain `sub`. */
  lemma NoOccurrenceWithoutLast(s: string, sub: string)
    requires sub != [] && sub[|sub| - 1] !in s
    ensures !Contains(s, sub)
  {
    forall j | 0 <= j && j + |sub| <= |s|
      ensures !IsAt(s, sub, j)
    {
      assert s[j..j + |sub|][|sub| - 1] == s[j + |sub| - 1];
    }
  }

  /** `sep` is first found right after `pre` when no occurrence fits in `pre` and a proper prefix of `sep`. */
  lemma FindAfterPrefix(pre: string, sep: string, rest: string)
    requires sep != [] && !Contains(pre + sep[..|sep| - 1], sep)
    ensures Find(pre + sep + rest, sep) == Some(|pre|)
  {
    var s := pre + sep + rest;
    var t := pre + sep[..|sep| - 1];
    assert IsAt(s, sep, |pre|);
    forall j | 0 <= j < |pre|
      ensures !IsAt(s, sep, j)
    {
      if IsAt(s, sep, j) {
        assert j + |sep| <= |t|;
        assert forall k :: 0 <= k < |t| ==> s[k] == t[k];
        assert s[j..j + |sep|] == t[j..j + |sep|];
        assert IsAt(t, sep, j);
      }
    }
  }

  /** `(pre + sep + v).split(sep).nth(1)` is `v` when `sep` first occurs after `pre` and not in `v`. */
  lemma SplitSecondAfterPrefix(pre: string, sep: string, v: string)
    requires sep != [] && !Contains(pre + sep[..|sep| - 1], sep) && !Contains(v, sep)
    ensures SplitSecond(pre + sep + v, sep) == Some(v)
  {
    FindAfterPrefix(pre, sep, v);
    assert (pre + sep + v)[|pre| + |sep|..] == v;
  }

  /** `str::find` for a single character. */
  function IndexOf(s: string, c: char): (r: Option<nat>)
    ensures r.Some? ==> r.value < |s| && s[r.value] == c && c !in s[..r.value]
    ensures r.None? ==> c !in s
  {
    var f := Find(s, [c]);
    assert forall j :: 0 <= j < |s| ==> (IsAt(s, [c], j) <==> s[j] == c) by {
      forall j | 0 <= j < |s| ensures IsAt(s, [c], j) <==> s[j] == c {
        assert s[j..j + 1] == [s[j]];
      }
    }
    if f.Some? then
      assert forall j :: 0 <= j < f.value ==> !IsAt(s, [c], j);
      Some(f.value)
    else
      assert forall j :: 0 <= j < |s| ==> !IsAt(s, [c], j);
      None
  }

  /** `str::starts_with` */
  predicate StartsWith(s: string, p: string) {
    |p| <= |s| && s[..|p|] == p
  }

  /** `str::ends_with` */
  predicate EndsWith(s: string, p: string) {
    |p| <= |s| && s[|s| - |p|..] == p
  }

  /** `str::strip_suffix` for a single character. */
  function StripSuffix(s: string, c: char): Option<string> {
    if s != [] && s[|s| - 1] == c then Some(s[..|s| - 1]) else None
  }

  /**
   * `s.split(sep).nth(1)`: the piece between the first and the second
   * occurrence of `sep` (or up to the end), or None when `sep` never occurs.
   */
  function SplitSecond(s: string, sep: string): (r: Option<string>)
    requires sep != []
    ensures r.None? <==> !Contains(s, sep)
    ensures r.Some? ==> !Contains(r.value, sep)
  {
    match Find(s, sep)
    case None => None
    case Some(i) =>
      var rest := s[i + |sep|..];
      match Find(rest, sep)
      case None => Some(rest)
      case Some(j) =>
        var piece := rest[..j];
        assert forall k :: !IsAt(piece, sep, k) by {
          forall k | IsAt(piece, sep, k) ensures false {
            assert IsAt(rest, sep, k);
          }
        }
        Some(piece)
  }

  /** `str::trim_start_matches(c)` */
  function TrimStartChar(s: string, c: char): (r: string)
    ensures |r| <= |s| && r == s[|s| - |r|..] && (r == [] || r[0] != c)
  {
    if s != [] && s[0] == c then TrimStartChar(s[1..], c) else s
  }

  /** `str::trim_end_matches(c)` */
  function TrimEndChar(s: string, c: char): (r: string)
    ensures |r| <= |s| && r == s[..|r|] && (r == [] || r[|r| - 1] != c)
  {
    if s != [] && s[|s| - 1] == c then TrimEndChar(s[..|s| - 1], c) else s
  }

  /** `str::trim_matches(c)` */
  function TrimChar(s: string, c: char): string {
    TrimEndChar(TrimStartChar(s, c), c)
  }

  /** ASCII case mapping; see README for what Unicode case mapping adds. */
  function LowerChar(c: char): char {
    if 'A' <= c <= 'Z' then (c as int + 32) as char else c
  }

  function UpperChar(c: char): char {
    if 'a' <= c <= 'z' then (c as int - 32) as char else c
  }

  /** `str::to_lowercase` */
  function ToLower(s: string): (r: string)
    ensures |r| == |s| && forall i :: 0 <= i < |s| ==> r[i] == LowerChar(s[i])
  {
    seq(|s|, i requires 0 <= i < |s| => LowerChar(s[i]))
  }

  /** `str::to_uppercase` */
  function ToUpper(s: string): (r: string)
    ensures |r| == |s| && forall i :: 0 <= i < |s| ==> r[i] == UpperChar(s[i])
  {
    seq(|s|, i requires 0 <= i < |s| => UpperChar(s[i]))
  }

  /** Upper-casing forgets letter case: a lower-cased text upper-cases to the same result. */
  lemma UpperForgetsCase(s: string)
    ensures ToUpper(ToLower(s)) == ToUpper(s)
  {
    forall i | 0 <= i < |s| ensures UpperChar(LowerChar(s[i])) == UpperChar(s[i]) { }
  }

  /** `str::replace` for single characters. */
  function ReplaceChar(s: string, from: char, to: char): (r: string)
    ensures |r| == |s| && forall i :: 0 <= i < |s| ==> r[i] == (if s[i] == from then to else s[i])
  {
    seq(|s|, i requires 0 <= i < |s| => if s[i] == from then to else s[i])
  }

  /** `[..].join(sep)` */
  function Join(parts: seq<string>, sep: string): string {
    if parts == [] then []
    else if |parts| == 1 then parts[0]
    else parts[0] + sep + Join(parts[1..], sep)
  }

  /** Concatenation of every part, `[..].concat()`. */
  function Concat(parts: seq<string>): string {
    if parts == [] then [] else parts[0] + Concat(parts[1..])
  }

  lemma ConcatSnoc(parts: seq<string>, last: string)
    ensures Concat(parts + [last]) == Concat(parts) + last
  {
    if parts != [] {
      assert (parts + [last])[1..] == parts[1..] + [last];
      ConcatSnoc(parts[1..], last);
    }
  }

  lemma JoinSnoc(parts: seq<string>, last: string, sep: string)
    requires parts != []
    ensures Join(parts + [last], sep) == Join(parts, sep) + sep + last
  {
    if |parts| > 1 {
      assert (parts + [last])[1..] == parts[1..] + [last];
      JoinSnoc(parts[1..], last, sep);
    }
  }

  /** A joined text starts with the first part and ends with the last. */
  lemma {:induction false} JoinEnds(parts: seq<string>, sep: string)
    ensures parts != [] ==> StartsWith(Join(parts, sep), parts[0]) && EndsWith(Join(parts, sep), parts[|parts| - 1])
  {
    if |parts| > 1 {
      var tail := Join(parts[1..], sep);
      var last := parts[|parts| - 1];
      JoinEnds(parts[1..], sep);
      assert parts[1..][|parts| - 2] == last;
      var j := Join(parts, sep);
      assert j == parts[0] + sep + tail;
      assert |last| <= |tail|;
      assert j[|j| - |last|..] == tail[|tail| - |last|..];
    }
  }

  predicate IsDigit(c: char) {
    '0' <= c <= '9'
  }

  predicate AllDigits(s: string) {
    forall i :: 0 <= i < |s| ==> IsDigit(s[i])
  }

  /** The decimal value of a digit string, most significant digit first. */
  function DigitsValue(s: string): nat
    requires AllDigits(s)
  {
    if s == [] then 0 else 10 * DigitsValue(s[..|s| - 1]) + (s[|s| - 1] as int - '0' as int)
  }

  const U32Limit: nat := 0x1_0000_0000

  /** `str::parse::<u32>`: an optional '+', at least one ASCII digit, nothing else, and a value below 2^32. */
  function ParseU32(s: string): (r: Option<nat>)
    ensures r.Some? ==> r.value < U32Limit
    ensures r.Some? ==> s != [] && (IsDigit(s[0]) || s[0] == '+')
  {
    var digits := if s != [] && s[0] == '+' then s[1..] else s;
    if digits != [] && AllDigits(digits) && DigitsValue(digits) < U32Limit then Some(DigitsValue(digits))
    else None
  }

  function DigitChar(d: nat): char
    requires d < 10
  {
    ('0' as int + d) as char
  }

  /** The shortest decimal spelling of `n`, as `format!("{}", n)` writes it. */
  function NatToString(n: nat): (r: string)
    ensures r != [] && AllDigits(r) && IsDigit(r[0])
    ensures |r| > 1 ==> r[0] != '0'
  {
    if n < 10 then [DigitChar(n)] else NatToString(n / 10) + [DigitChar(n % 10)]
  }

  lemma {:induction false} DigitsOfNatToString(n: nat)
    ensures DigitsValue(NatToString(n)) == n
  {
    if n >= 10 {
      var s := NatToString(n);
      assert s[..|s| - 1] == NatToString(n / 10);
      DigitsOfNatToString(n / 10);
    }
  }

  /** Printing a u32 and parsing it back gives the same number. */
  lemma ParseU32OfNatToString(n: nat)
    requires n < U32Limit
    ensures ParseU32(NatToString(n)) == Some(n)
  {
    DigitsOfNatToString(n);
  }
  /** `String`'s `Ord`: lexicographic by character (the same order as on the UTF-8 bytes), a prefix first. */
  predicate LexLe(a: string, b: string)
    decreases |a|
  {
    a == [] || (b != [] && (a[0] < b[0] || (a[0] == b[0] && LexLe(a[1..], b[1..]))))
  }

  lemma {:induction false} LexLeTotal(a: string, b: string)
    ensures LexLe(a, b) || LexLe(b, a)
    decreases |a|
  {
    if a != [] && b != [] && a[0] == b[0] {
      LexLeTotal(a[1..], b[1..]);
    }
  }

  lemma {:induction false} LexLeAntisymmetric(a: string, b: string)
    requires LexLe(a, b) && LexLe(b, a)
    ensures a == b
    decreases |a|
  {
    if a != [] {
      LexLeAntisymmetric(a[1..], b[1..]);
      assert a == [a[0]] + a[1..] && b == [b[0]] + b[1..];
    }
  }

  lemma {:induction false} LexLeTransitive(a: string, b: string, c: string)
    requires LexLe(a, b) && LexLe(b, c)
    ensures LexLe(a, c)
    decreases |a|
  {
    if a != [] && a[0] == b[0] && b[0] == c[0] {
      LexLeTransitive(a[1..], b[1..], c[1..]);
    }
  }

  // ---------------------------------------------------------------------------
  // Small shared facts

  /** Sequence concatenation regroups freely. */
  lemma Regroup<T>(a: seq<T>, b: seq<T>, c: seq<T>)
    ensures a + (b + c) == (a + b) + c
  {
  }

  /** Appending a non-empty sequence is appending all but its last element, then the last. */
  lemma SplitLast<T>(a: seq<T>, t: seq<T>)
    requires t != []
    ensures a + t == (a + t[..|t| - 1]) + [t[|t| - 1]]
  {
    assert t == t[..|t| - 1] + [t[|t| - 1]];
  }

  /** The smaller of two reals, as `f32::min` on non-NaN values. */
  function Min(a: real, b: real): real {
    if a <= b then a else b
  }
}
