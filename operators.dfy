/**
 * The comparison-operator rewrite of the list-query pipeline: the global
 * replace of the regular expression \b(gt|gte|lt|lte|in)\b by `$` followed
 * by the match, applied to the JSON text of the filter.
 *
 * `ReplaceOperators` follows the regular-expression engine position by
 * position. `ByWords` is an independent reading of the same operation, word
 * run by word run; `ReplaceIsByWords` proves the two equal, and the
 * properties (length, undoing, where it acts, how it meets the JSON text)
 * are proved through whichever is handier.
 */
module Operators {
  import opened Wrappers
  import Json

  /** The regular-expression word characters \w (no Unicode flag): [A-Za-z0-9_]. */
  predicate IsWordChar(c: char) {
    'a' <= c <= 'z' || 'A' <= c <= 'Z' || '0' <= c <= '9' || c == '_'
  }

  predicate AllWord(s: string) {
    forall i :: 0 <= i < |s| ==> IsWordChar(s[i])
  }

  predicate NoWord(s: string) {
    forall i :: 0 <= i < |s| ==> !IsWordChar(s[i])
  }

  predicate IsOperatorWord(w: string) {
    w == "gt" || w == "gte" || w == "lt" || w == "lte" || w == "in"
  }

  /** \b between positions k - 1 and k: exactly one side is a word character (outside the string is not). */
  predicate WordBoundary(s: string, k: nat)
    requires k <= |s|
  {
    (k > 0 && IsWordChar(s[k - 1])) != (k < |s| && IsWordChar(s[k]))
  }

  /** The pattern, with the alternative `w` chosen, matches the text at position p. */
  predicate MatchesWordAt(s: string, p: nat, w: string)
    requires p <= |s|
  {
    p + |w| <= |s| && SliceIs(s, p, w) && WordBoundary(s, p) && WordBoundary(s, p + |w|)
  }

  predicate SliceIs(s: string, p: nat, w: string)
    requires p + |w| <= |s|
    decreases |w|
  {
    w == [] || (s[p] == w[0] && SliceIs(s, p + 1, w[1..]))
  }

  /** The alternatives of the pattern, in the order written. */
  const Alternatives: seq<string> := ["gt", "gte", "lt", "lte", "in"]

  lemma AlternativesShape()
    ensures |Alternatives| == 5
    ensures forall k :: 0 <= k < |Alternatives| ==> IsOperatorWord(Alternatives[k]) && 2 <= |Alternatives[k]| <= 3
    ensures forall w :: IsOperatorWord(w) ==> w in Alternatives
  {
  }

  lemma AlternativeLength(k: nat)
    requires k < |Alternatives|
    ensures 2 <= |Alternatives[k]| <= 3
  {
  }

  /** The first alternative, from the k-th on, that matches at p: alternation tries them in order. */
  function FirstMatch(s: string, p: nat, k: nat): (r: Option<nat>)
    requires p <= |s| && k <= |Alternatives|
    ensures r.Some? ==> k <= r.value < |Alternatives| && p + |Alternatives[r.value]| <= |s|
    decreases |Alternatives| - k
  {
    if k == |Alternatives| then None
    else if MatchesWordAt(s, p, Alternatives[k]) then Some(k)
    else FirstMatch(s, p, k + 1)
  }

  /** FirstMatch finds the first alternative that matches, and none before it. */
  lemma {:induction false} FirstMatchMeans(s: string, p: nat, k: nat)
    requires p <= |s| && k <= |Alternatives|
    ensures var r := FirstMatch(s, p, k);
            && (r.Some? ==> MatchesWordAt(s, p, Alternatives[r.value]))
            && (r.Some? ==> forall j :: k <= j < r.value ==> !MatchesWordAt(s, p, Alternatives[j]))
            && (r.None? ==> forall j :: k <= j < |Alternatives| ==> !MatchesWordAt(s, p, Alternatives[j]))
    decreases |Alternatives| - k
  {
    if k < |Alternatives| && !MatchesWordAt(s, p, Alternatives[k]) {
      FirstMatchMeans(s, p, k + 1);
    }
  }

  /** The length of the match at position p; None if no alternative matches. */
  function MatchLength(s: string, p: nat): (r: Option<nat>)
    requires p <= |s|
    ensures r.Some? ==> 2 <= r.value <= 3 && p + r.value <= |s|
  {
    match FirstMatch(s, p, 0)
    case None => None
    case Some(k) => AlternativeLength(k); Some(|Alternatives[k]|)
  }

  lemma {:induction false} SliceIsMeans(s: string, p: nat, w: string)
    requires p + |w| <= |s|
    ensures SliceIs(s, p, w) <==> s[p..p + |w|] == w
    decreases |w|
  {
    if w != [] {
      SliceIsMeans(s, p + 1, w[1..]);
      assert s[p..p + |w|] == [s[p]] + s[p + 1..p + 1 + |w[1..]|];
      assert w == [w[0]] + w[1..];
    }
  }

  /** What the pattern matches is one of the five words, spelled by the text. */
  lemma MatchIsOperatorWord(s: string, p: nat)
    requires p <= |s| && MatchAt(s, p)
    ensures IsOperatorWord(s[p..p + MatchLength(s, p).value])
    ensures AllWord(s[p..p + MatchLength(s, p).value]) && IsWordChar(s[p])
  {
    var k := FirstMatch(s, p, 0).value;
    var w := Alternatives[k];
    AlternativesShape();
    FirstMatchMeans(s, p, 0);
    assert MatchesWordAt(s, p, w) && |w| == MatchLength(s, p).value;
    SliceIsMeans(s, p, w);
    OperatorWordIsWord(w);
    assert s[p] == w[0];
  }

  predicate MatchAt(s: string, p: nat)
    requires p <= |s|
  {
    MatchLength(s, p).Some?
  }

  /** A match begins with a word character. */
  lemma MatchStartsWord(s: string, p: nat)
    requires p < |s|
    ensures MatchAt(s, p) ==> IsWordChar(s[p])
  {
    if MatchAt(s, p) { MatchIsOperatorWord(s, p); }
  }

  /** The global replace from position i on: each match is written with a `$` before it and the scan resumes after it. */
  function ReplaceFrom(s: string, i: nat): string
    requires i <= |s|
    decreases |s| - i
  {
    if i == |s| then []
    else
      match MatchLength(s, i)
      case Some(n) => "$" + s[i..i + n] + ReplaceFrom(s, i + n)
      case None => [s[i]] + ReplaceFrom(s, i + 1)
  }

  /** `queryStr.replace(/\b(gt|gte|lt|lte|in)\b/g, match => `$${match}`)`. */
  function ReplaceOperators(s: string): string {
    ReplaceFrom(s, 0)
  }

  /** The number of positions of s, from i on, at which the pattern matches. */
  function CountFrom(s: string, i: nat): nat
    requires i <= |s|
    decreases |s| - i
  {
    if i == |s| then 0 else (if MatchAt(s, i) then 1 else 0) + CountFrom(s, i + 1)
  }

  function MatchCount(s: string): nat {
    CountFrom(s, 0)
  }

  // ---------------------------------------------------------------------
  // The word-run reading

  /** The length of the run of word characters at the start of t. */
  function RunLength(t: string): (m: nat)
    ensures m <= |t|
    ensures m < |t| ==> !IsWordChar(t[m])
  {
    if t != [] && IsWordChar(t[0]) then RunLength(t[1..]) + 1 else 0
  }

  /** The run is made of word characters. */
  lemma {:induction false} RunIsWord(t: string)
    ensures AllWord(t[..RunLength(t)])
  {
    if t != [] && IsWordChar(t[0]) {
      var m := RunLength(t[1..]);
      RunIsWord(t[1..]);
      assert t[..m + 1] == [t[0]] + t[1..][..m];
    }
  }

  /** Reading t as alternating runs: a `$` goes before every maximal word run that is an operator word. */
  function ByWords(t: string): string
    decreases |t|
  {
    if t == [] then []
    else if !IsWordChar(t[0]) then [t[0]] + ByWords(t[1..])
    else
      var m := RunLength(t);
      Dollar(t[..m]) + t[..m] + ByWords(t[m..])
  }

  /** What goes before a word run: `$` for an operator word, nothing otherwise. */
  function Dollar(w: string): string {
    if IsOperatorWord(w) then "$" else ""
  }

  /** t starts with a whole operator word. */
  predicate StartsWithOperatorRun(t: string) {
    t != [] && IsWordChar(t[0]) && IsOperatorWord(t[..RunLength(t)])
  }

  /** Deletes every `$` that stands right before a whole operator word. */
  function DropInserted(t: string): string
    decreases |t|
  {
    if t == [] then []
    else if t[0] == '$' && StartsWithOperatorRun(t[1..]) then DropInserted(t[1..])
    else [t[0]] + DropInserted(t[1..])
  }

  // ---------------------------------------------------------------------
  // The regular expression matches exactly at the starts of operator runs

  lemma OperatorWordIsWord(w: string)
    requires IsOperatorWord(w)
    ensures AllWord(w) && |w| >= 2
  {
  }

  lemma RunOfWordPrefix(t: string, w: string)
    requires AllWord(w) && |w| <= |t| && t[..|w|] == w
    ensures RunLength(t) >= |w|
    decreases |w|
  {
    if |w| > 0 {
      assert t[0] == w[0];
      assert t[1..][..|w| - 1] == w[1..];
      RunOfWordPrefix(t[1..], w[1..]);
    }
  }

  lemma RunStopsAt(t: string, k: nat)
    requires k < |t| && !IsWordChar(t[k])
    ensures RunLength(t) <= k
  {
    if k > 0 && IsWordChar(t[0]) {
      assert t[1..][k - 1] == t[k];
      RunStopsAt(t[1..], k - 1);
    }
  }

  /** Where the text before p is not a word character, the pattern matches at p iff an operator run starts there, with its length. */
  lemma MatchIffOperatorRun(s: string, p: nat)
    requires p <= |s|
    requires p == 0 || !IsWordChar(s[p - 1])
    ensures MatchLength(s, p).Some? <==> StartsWithOperatorRun(s[p..])
    ensures MatchLength(s, p).Some? ==> MatchLength(s, p).value == RunLength(s[p..])
  {
    var t := s[p..];
    var m := RunLength(t);
    forall w | IsOperatorWord(w)
      ensures MatchesWordAt(s, p, w) <==> (m >= 1 && t[..m] == w)
    {
      OperatorWordIsWord(w);
      if p + |w| <= |s| { SliceIsMeans(s, p, w); }
      if MatchesWordAt(s, p, w) {
        assert t[..|w|] == w;
        RunOfWordPrefix(t, w);
        if |w| < |t| {
          assert t[|w|] == s[p + |w|];
          RunStopsAt(t, |w|);
        }
      }
      if m >= 1 && t[..m] == w {
        assert s[p..p + |w|] == w;
        assert p + |w| < |s| ==> s[p + |w|] == t[m];
      }
    }
    AlternativesShape();
    FirstMatchMeans(s, p, 0);
    if StartsWithOperatorRun(t) {
      var k :| 0 <= k < |Alternatives| && Alternatives[k] == t[..m];
      assert MatchesWordAt(s, p, Alternatives[k]);
    }
  }

  /** No match starts inside a word, so none between the first and last character of a run. */
  lemma NoMatchAfterWordChar(s: string, p: nat)
    requires 0 < p <= |s| && IsWordChar(s[p - 1])
    ensures !MatchAt(s, p)
  {
    forall k | 0 <= k < |Alternatives|
      ensures !MatchesWordAt(s, p, Alternatives[k])
    {
      AlternativesShape();
      OperatorWordIsWord(Alternatives[k]);
    }
    FirstMatchMeans(s, p, 0);
  }

  /** Inside a run, the replace copies the rest of the run. */
  lemma {:induction false} ReplaceInsideRun(s: string, j: nat, e: nat)
    requires 0 < j <= e <= |s|
    requires AllWord(s[j - 1..e])
    ensures CopiedUpTo(s, j, e)
    decreases e - j
  {
    if j < e {
      InsideRunStep(s, j, e);
      ReplaceAtNoMatch(s, j);
      ReplaceInsideRun(s, j + 1, e);
      ConsSlice(s, j, e, ReplaceFrom(s, j), ReplaceFrom(s, j + 1), ReplaceFrom(s, e));
    } else {
      assert s[j..e] == [];
    }
  }

  lemma ConsSlice(s: string, j: nat, e: nat, x: string, y: string, z: string)
    requires j < e <= |s| && x == [s[j]] + y && y == s[j + 1..e] + z
    ensures x == s[j..e] + z
  {
    assert s[j..e] == [s[j]] + s[j + 1..e];
  }

  /** From j to e the replace copies the text. */
  predicate CopiedUpTo(s: string, j: nat, e: nat)
    requires j <= e <= |s|
  {
    ReplaceFrom(s, j) == s[j..e] + ReplaceFrom(s, e)
  }

  /** Inside a run, no match is counted. */
  lemma {:induction false} CountInsideRun(s: string, j: nat, e: nat)
    requires 0 < j <= e <= |s|
    requires AllWord(s[j - 1..e])
    ensures CountFrom(s, j) == CountFrom(s, e)
    decreases e - j
  {
    if j < e {
      InsideRunStep(s, j, e);
      CountAtMatch(s, j);
      CountInsideRun(s, j + 1, e);
    }
  }

  /** One step into a run: no match at j, and the rest of the run is still all word characters. */
  lemma InsideRunStep(s: string, j: nat, e: nat)
    requires 0 < j < e <= |s| && AllWord(s[j - 1..e])
    ensures MatchLength(s, j) == None && AllWord(s[j..e])
  {
    assert s[j - 1] == s[j - 1..e][0];
    NoMatchAfterWordChar(s, j);
    assert s[j..e] == s[j - 1..e][1..];
  }

  /** The replace from i agrees with the word-run reading of the rest of the text. */
  predicate AgreesFrom(s: string, i: nat)
    requires i <= |s|
  {
    ReplaceFrom(s, i) == ByWords(s[i..])
  }

  /** The position-by-position replace from i is the word-run reading of the rest of the text. */
  lemma {:induction false} ReplaceFromIsByWords(s: string, i: nat)
    requires i <= |s|
    requires i == |s| || i == 0 || !IsWordChar(s[i - 1]) || !IsWordChar(s[i])
    ensures AgreesFrom(s, i)
    decreases |s| - i, 1
  {
    if i == |s| {
      assert s[i..] == [];
    } else if !IsWordChar(s[i]) {
      ReplaceNonWordStep(s, i);
    } else {
      ReplaceRunStep(s, i);
    }
  }

  lemma {:induction false} ReplaceNonWordStep(s: string, i: nat)
    requires i < |s| && !IsWordChar(s[i])
    ensures AgreesFrom(s, i)
    decreases |s| - i, 0
  {
    var t := s[i..];
    MatchStartsWord(s, i);
    ReplaceFromIsByWords(s, i + 1);
    assert t[0] == s[i] && t[1..] == s[i + 1..];
    assert ReplaceFrom(s, i) == [s[i]] + ReplaceFrom(s, i + 1);
  }

  lemma {:induction false} ReplaceRunStep(s: string, i: nat)
    requires i < |s| && IsWordChar(s[i]) && (i == 0 || !IsWordChar(s[i - 1]))
    ensures AgreesFrom(s, i)
    decreases |s| - i, 0
  {
    var j := RunEnd(s, i);
    ReplaceFromIsByWords(s, j);
    RunGlue(s, i, j);
  }

  /** A run whose rest already agrees agrees from its start. */
  lemma RunGlue(s: string, i: nat, j: nat)
    requires i < j <= |s| && IsWordChar(s[i]) && (i == 0 || !IsWordChar(s[i - 1])) && RunSpan(s, i, j - i)
    requires AgreesFrom(s, j)
    ensures AgreesFrom(s, i)
  {
    var m := j - i;
    AgreesAt(s, j, i + m);
    RunGlueLength(s, i, m);
  }

  lemma RunGlueLength(s: string, i: nat, m: nat)
    requires i < |s| && IsWordChar(s[i]) && (i == 0 || !IsWordChar(s[i - 1])) && RunSpan(s, i, m)
    requires i + m <= |s| && AgreesFrom(s, i + m)
    ensures AgreesFrom(s, i)
  {
    var d := RunHead(s, i, m);
    AgreeGlue(s, i, m, d);
  }

  lemma AgreesAt(s: string, j: nat, k: nat)
    requires j <= |s| && j == k && AgreesFrom(s, j)
    ensures AgreesFrom(s, k)
  {
  }

  /** The replace and the word-run reading agree from i when they put the same text before their agreeing rests. */
  lemma AgreeGlue(s: string, i: nat, m: nat, d: string)
    requires i + m <= |s| && AgreesFrom(s, i + m)
    requires ReplaceFrom(s, i) == d + s[i..i + m] + ReplaceFrom(s, i + m)
    requires ByWords(s[i..]) == d + s[i..i + m] + ByWords(s[i + m..])
    ensures AgreesFrom(s, i)
  {
    Json.SamePrefix(ReplaceFrom(s, i), ByWords(s[i..]), d + s[i..i + m], ReplaceFrom(s, i + m), ByWords(s[i + m..]));
  }

  /** The word run at i is m characters long. */
  predicate RunSpan(s: string, i: nat, m: nat)
    requires i <= |s|
  {
    m == RunLength(s[i..])
  }

  /** The word run at i and where it ends. */
  /** The end of the word run that starts at i. */
  lemma RunEnd(s: string, i: nat) returns (j: nat)
    requires i < |s| && IsWordChar(s[i])
    ensures i < j <= |s| && RunSpan(s, i, j - i) && (j == |s| || !IsWordChar(s[j]))
  {
    var t := s[i..];
    var m := RunLength(t);
    assert i + m < |s| ==> s[i + m] == t[m];
    j := i + m;
  }

  /** Whether the pattern matches at the start of a word run: exactly when the run is an operator word. */
  lemma RunMatch(s: string, i: nat, m: nat)
    requires i < |s| && IsWordChar(s[i]) && (i == 0 || !IsWordChar(s[i - 1])) && m == RunLength(s[i..])
    ensures i + m <= |s| && AllWord(s[i..i + m])
    ensures MatchLength(s, i) == if IsOperatorWord(s[i..i + m]) then Some(m) else None
  {
    var t := s[i..];
    RunIsWord(t);
    assert s[i..i + m] == t[..m];
    MatchIffOperatorRun(s, i);
  }

  /** The replace at the start of a word run: the run, with a `$` before it when it is an operator word. */
  lemma ReplaceRunHead(s: string, i: nat, m: nat)
    requires i < |s| && IsWordChar(s[i]) && (i == 0 || !IsWordChar(s[i - 1])) && RunSpan(s, i, m)
    ensures i + m <= |s| && ReplaceFrom(s, i) == Dollar(s[i..i + m]) + s[i..i + m] + ReplaceFrom(s, i + m)
  {
    RunMatch(s, i, m);
    var w := s[i..i + m];
    if IsOperatorWord(w) {
      ReplaceAtMatch(s, i, m);
      assert Dollar(w) == "$";
    } else {
      PlainRunCopied(s, i, m);
      assert Dollar(w) + w == w;
    }
  }

  /** The replace and the word-run reading both put the same prefix before a word run: `$` or nothing. */
  lemma RunHead(s: string, i: nat, m: nat) returns (d: string)
    requires i < |s| && IsWordChar(s[i]) && (i == 0 || !IsWordChar(s[i - 1])) && RunSpan(s, i, m)
    ensures i + m <= |s| && ReplaceFrom(s, i) == d + s[i..i + m] + ReplaceFrom(s, i + m)
    ensures ByWords(s[i..]) == d + s[i..i + m] + ByWords(s[i + m..])
  {
    d := Dollar(s[i..i + m]);
    ReplaceRunHead(s, i, m);
    ByWordsRun(s, i, m);
  }

  /** The word-run reading of the text from i, where a word run of length m starts. */
  lemma ByWordsRun(s: string, i: nat, m: nat)
    requires i < |s| && IsWordChar(s[i]) && m == RunLength(s[i..])
    ensures i + m <= |s| && ByWords(s[i..]) == Dollar(s[i..i + m]) + s[i..i + m] + ByWords(s[i + m..])
  {
    var t := s[i..];
    assert t[..m] == s[i..i + m] && t[m..] == s[i + m..];
  }

  /** A word run that is not an operator word is copied as it is. */
  lemma PlainRunCopied(s: string, i: nat, m: nat)
    requires 0 < m && i + m <= |s| && AllWord(s[i..i + m]) && MatchLength(s, i) == None
    ensures ReplaceFrom(s, i) == s[i..i + m] + ReplaceFrom(s, i + m)
  {
    ReplaceInsideRun(s, i + 1, i + m);
    ReplaceAtNoMatch(s, i);
    var v, r := s[i + 1..i + m], ReplaceFrom(s, i + m);
    Json.Assoc3([s[i]], v, r);
    assert [s[i]] + v == s[i..i + m];
  }

  lemma ReplaceAtMatch(s: string, i: nat, n: nat)
    requires i < |s| && MatchLength(s, i) == Some(n)
    ensures ReplaceFrom(s, i) == "$" + s[i..i + n] + ReplaceFrom(s, i + n)
  {
  }

  lemma CountAtMatch(s: string, i: nat)
    requires i < |s|
    ensures CountFrom(s, i) == (if MatchAt(s, i) then 1 else 0) + CountFrom(s, i + 1)
  {
  }

  lemma ReplaceAtNoMatch(s: string, i: nat)
    requires i < |s| && MatchLength(s, i) == None
    ensures ReplaceFrom(s, i) == [s[i]] + ReplaceFrom(s, i + 1)
  {
  }

  /** The regular-expression replace and the word-run reading agree on every text. */
  lemma ReplaceIsByWords(s: string)
    ensures ReplaceOperators(s) == ByWords(s)
  {
    ReplaceFromIsByWords(s, 0);
    assert s[0..] == s;
    assert AgreesFrom(s, 0);
  }

  // ---------------------------------------------------------------------
  // Length: one `$` per match, nothing else added

  lemma {:induction false} ReplaceFromLength(s: string, i: nat)
    requires i <= |s|
    ensures LengthFrom(s, i)
    decreases |s| - i, 1
  {
    if i < |s| {
      if MatchAt(s, i) {
        LengthMatchStep(s, i);
      } else {
        LengthPlainStep(s, i);
      }
    }
  }

  lemma {:induction false} LengthMatchStep(s: string, i: nat)
    requires i < |s| && MatchAt(s, i)
    ensures LengthFrom(s, i)
    decreases |s| - i, 0
  {
    var n := MatchLength(s, i).value;
    ReplaceFromLength(s, i + n);
    LengthAtMatch(s, i, n);
  }

  lemma {:induction false} LengthPlainStep(s: string, i: nat)
    requires i < |s| && !MatchAt(s, i)
    ensures LengthFrom(s, i)
    decreases |s| - i, 0
  {
    ReplaceFromLength(s, i + 1);
    LengthAtNoMatch(s, i);
  }

  /** The replace from i adds one character per match from i on. */
  predicate LengthFrom(s: string, i: nat)
    requires i <= |s|
  {
    |ReplaceFrom(s, i)| == |s| - i + CountFrom(s, i)
  }

  lemma LengthAtMatch(s: string, i: nat, n: nat)
    requires i < |s| && MatchLength(s, i) == Some(n) && LengthFrom(s, i + n)
    ensures LengthFrom(s, i)
  {
    MatchIsOperatorWord(s, i);
    CountInsideRun(s, i + 1, i + n);
    ReplaceAtMatch(s, i, n);
    CountAtMatch(s, i);
  }

  lemma LengthAtNoMatch(s: string, i: nat)
    requires i < |s| && MatchLength(s, i) == None && LengthFrom(s, i + 1)
    ensures LengthFrom(s, i)
  {
    ReplaceAtNoMatch(s, i);
    CountAtMatch(s, i);
  }

  /** The output is the input plus one `$` per match. */
  lemma ReplaceLength(s: string)
    ensures |ReplaceOperators(s)| == |s| + MatchCount(s)
  {
    ReplaceFromLength(s, 0);
    assert LengthFrom(s, 0);
  }

  // ---------------------------------------------------------------------
  // Undoing: deleting the inserted `$` characters gives the input back

  lemma RunOfConcat(x: string, y: string)
    requires x != [] && AllWord(x) && (y == [] || !IsWordChar(y[0]))
    ensures RunLength(x + y) == |x| && (x + y)[..|x|] == x && (x + y)[|x|..] == y
    decreases |x|
  {
    if |x| > 1 {
      assert (x + y)[1..] == x[1..] + y;
      RunOfConcat(x[1..], y);
    } else {
      assert (x + y)[1..] == y;
    }
  }

  lemma ByWordsEmptyOrNonWordFirst(y: string)
    requires y == [] || !IsWordChar(y[0])
    ensures ByWords(y) == [] || (ByWords(y)[0] == y[0] && !IsWordChar(ByWords(y)[0]))
  {
  }

  /** The rewritten text never starts with a whole operator word: each one has its `$` in front. */
  lemma ByWordsNotOperatorFirst(y: string)
    ensures !StartsWithOperatorRun(ByWords(y))
  {
    if y != [] && IsWordChar(y[0]) {
      var m := RunLength(y);
      if IsOperatorWord(y[..m]) {
        ByWordsOperatorRun(y, m);
        assert ByWords(y)[0] == '$';
      } else {
        PlainRunFirst(y, m);
      }
    }
  }

  lemma PlainRunFirst(y: string, m: nat)
    requires y != [] && IsWordChar(y[0]) && m == RunLength(y) && !IsOperatorWord(y[..m])
    ensures !StartsWithOperatorRun(ByWords(y))
  {
    ByWordsHead(y, m);
    RunIsWord(y);
    assert Dollar(y[..m]) + y[..m] == y[..m];
    assert y[m..] == [] || y[m..][0] == y[m];
    ByWordsEmptyOrNonWordFirst(y[m..]);
    RunOfConcat(y[..m], ByWords(y[m..]));
  }

  lemma {:induction false} DropWordPrefix(x: string, y: string)
    requires AllWord(x)
    ensures DropInserted(x + y) == x + DropInserted(y)
    decreases |x|
  {
    if x != [] {
      assert AllWord(x[1..]) by { forall k | 0 <= k < |x[1..]| ensures IsWordChar(x[1..][k]) { assert x[1..][k] == x[k + 1]; } }
      DropWordPrefix(x[1..], y);
      DropWordHead(x, y);
      Json.Assoc3([x[0]], x[1..], DropInserted(y));
      assert [x[0]] + x[1..] == x;
    } else {
      assert x + y == y;
    }
  }

  lemma DropWordHead(x: string, y: string)
    requires x != [] && IsWordChar(x[0])
    ensures DropInserted(x + y) == [x[0]] + DropInserted(x[1..] + y)
  {
    assert x + y == [x[0]] + (x[1..] + y);
    DropKeeps(x[0], x[1..] + y);
  }

  /** Deleting the inserted `$` characters from the rewrite of t gives t back. */
  predicate Restores(t: string) {
    DropInserted(ByWords(t)) == t
  }

  lemma {:induction false} DropByWords(s: string)
    ensures Restores(s)
    decreases |s|, 1
  {
    if s != [] {
      if !IsWordChar(s[0]) {
        DropNonWordStep(s);
      } else {
        DropRunStep(s);
      }
    }
  }

  /** A character is kept unless it is a `$` right before a whole operator word. */
  lemma DropKeeps(c: char, x: string)
    requires !(c == '$' && StartsWithOperatorRun(x))
    ensures DropInserted([c] + x) == [c] + DropInserted(x)
  {
    assert ([c] + x)[1..] == x;
  }

  lemma DropDollar(x: string)
    requires StartsWithOperatorRun(x)
    ensures DropInserted("$" + x) == DropInserted(x)
  {
    assert ("$" + x)[1..] == x;
  }

  lemma {:induction false} DropNonWordStep(s: string)
    requires s != [] && !IsWordChar(s[0])
    ensures Restores(s)
    decreases |s|, 0
  {
    var rest := ByWords(s[1..]);
    ByWordsNotOperatorFirst(s[1..]);
    DropByWords(s[1..]);
    assert ByWords(s) == [s[0]] + rest;
    DropKeeps(s[0], rest);
    assert [s[0]] + s[1..] == s;
  }

  lemma {:induction false} DropRunStep(s: string)
    requires s != [] && IsWordChar(s[0])
    ensures Restores(s)
    decreases |s|, 0
  {
    var m := RunLength(s);
    var w, t := s[..m], s[m..];
    RunIsWord(s);
    DropByWords(t);
    ByWordsHead(s, m);
    assert t == [] || t[0] == s[m];
    ByWordsEmptyOrNonWordFirst(t);
    DropRun(w, ByWords(t));
    assert s == w + t;
  }

  /** The rewrite of a text that starts with a word run. */
  lemma ByWordsHead(s: string, m: nat)
    requires s != [] && IsWordChar(s[0]) && m == RunLength(s)
    ensures ByWords(s) == Dollar(s[..m]) + s[..m] + ByWords(s[m..])
  {
  }

  /** Undoing a whole word run and what the rewrite put before it. */
  lemma DropRun(w: string, rest: string)
    requires w != [] && AllWord(w) && (rest == [] || !IsWordChar(rest[0]))
    ensures DropInserted(Dollar(w) + w + rest) == w + DropInserted(rest)
  {
    DropWordPrefix(w, rest);
    if IsOperatorWord(w) {
      RunOfConcat(w, rest);
      DropDollar(w + rest);
      Json.Assoc3("$", w, rest);
    } else {
      assert Dollar(w) + w + rest == w + rest;
    }
  }

  lemma ByWordsOperatorRun(s: string, m: nat)
    requires s != [] && IsWordChar(s[0]) && m == RunLength(s) && IsOperatorWord(s[..m])
    ensures ByWords(s) == "$" + s[..m] + ByWords(s[m..])
  {
    assert Dollar(s[..m]) == "$";
  }

  /** Deleting the `$` characters the rewrite inserted restores the input. */
  lemma DropInsertedRestores(s: string)
    ensures DropInserted(ReplaceOperators(s)) == s
  {
    ReplaceIsByWords(s);
    DropByWords(s);
    assert Restores(s);
  }

  // ---------------------------------------------------------------------
  // Where it acts, on concrete text

  /** A text that is one word run gets a `$` exactly when it is an operator word. */
  lemma WholeWordRewrite(w: string)
    requires w != [] && AllWord(w)
    ensures ReplaceOperators(w) == Dollar(w) + w
  {
    ReplaceIsByWords(w);
    ByWordsAllWord(w);
  }

  /** A whole operator word gets its `$`. */
  lemma OperatorWordMarked(w: string)
    requires IsOperatorWord(w)
    ensures ReplaceOperators(w) == "$" + w
  {
    OperatorWordIsWord(w);
    WholeWordRewrite(w);
  }

  /** A word that is not one of the five is left alone, even when it contains one. */
  lemma PlainWordKept(w: string)
    requires w != [] && AllWord(w) && !IsOperatorWord(w)
    ensures ReplaceOperators(w) == w
  {
    WholeWordRewrite(w);
    assert Dollar(w) + w == w;
  }

  /** The rewrite is not idempotent: an operator word that already has its `$` gets another. */
  lemma NotIdempotent(w: string)
    requires IsOperatorWord(w)
    ensures ReplaceOperators(w) == "$" + w
    ensures ReplaceOperators(ReplaceOperators(w)) == "$$" + w != ReplaceOperators(w)
  {
    OperatorWordMarked(w);
    DollarWordRewrite(w);
    assert ("$$" + w)[1] != ("$" + w)[1];
  }

  /** A `$` in front of an operator word is kept, and another one added. */
  lemma DollarWordRewrite(w: string)
    requires IsOperatorWord(w)
    ensures ReplaceOperators("$" + w) == "$$" + w
  {
    OperatorWordIsWord(w);
    ReplaceIsByWords("$" + w);
    ByWordsAllWord(w);
    assert ("$" + w)[1..] == w;
    assert ByWords("$" + w) == "$" + ByWords(w);
  }

  /** Operator letters inside a longer word are left alone. */
  lemma LongerWordsUntouched(w: string)
    requires w == "begin" || w == "gtx" || w == "lter" || w == "ingredient"
    ensures ReplaceOperators(w) == w
  {
    PlainWordKept(w);
  }

  // ---------------------------------------------------------------------
  // The rewrite on JSON text: keys and string values alike

  /** No code point below U+0020, the ones JSON.stringify writes as an escape ending in letters or digits. */
  predicate NoControl(s: string) {
    forall i :: 0 <= i < |s| ==> s[i] as int >= 0x20
  }

  predicate ValueNoControl(v: Json.JVal)
    decreases v
  {
    match v
    case Str(s) => NoControl(s)
    case Arr(items) => forall i :: 0 <= i < |items| ==> ValueNoControl(items[i])
    case Obj(ms) => forall i :: 0 <= i < |ms| ==> NoControl(ms[i].key) && ValueNoControl(ms[i].value)
  }

  /** Every key and every string in the value rewritten. */
  function RewriteValue(v: Json.JVal): Json.JVal
    decreases v, 1
  {
    match v
    case Str(s) => Json.Str(ReplaceOperators(s))
    case Arr(items) => Json.Arr(RewriteItems(items))
    case Obj(ms) => Json.Obj(RewriteMembers(ms))
  }

  function RewriteItems(items: seq<Json.JVal>): (r: seq<Json.JVal>)
    ensures |r| == |items|
    decreases items, 0
  {
    if items == [] then [] else [RewriteValue(items[0])] + RewriteItems(items[1..])
  }

  function RewriteMembers(ms: seq<Json.Member>): (r: seq<Json.Member>)
    ensures |r| == |ms|
    decreases ms, 0
  {
    if ms == [] then []
    else [Json.Member(ReplaceOperators(ms[0].key), RewriteValue(ms[0].value))] + RewriteMembers(ms[1..])
  }

  /** Member by member: the i-th key rewritten, the i-th value rewritten. */
  lemma {:induction false} RewriteMembersAt(ms: seq<Json.Member>)
    ensures forall i :: 0 <= i < |ms| ==>
      RewriteMembers(ms)[i] == Json.Member(ReplaceOperators(ms[i].key), RewriteValue(ms[i].value))
  {
    if ms != [] {
      RewriteMembersAt(ms[1..]);
      forall i | 0 <= i < |ms|
        ensures RewriteMembers(ms)[i] == Json.Member(ReplaceOperators(ms[i].key), RewriteValue(ms[i].value))
      {
        if i > 0 { assert ms[1..][i - 1] == ms[i]; }
      }
    }
  }

  predicate Junction(a: string, b: string) {
    a == [] || b == [] || !IsWordChar(a[|a| - 1]) || !IsWordChar(b[0])
  }

  lemma RunOfLonger(a: string, b: string)
    requires RunLength(a) < |a|
    ensures RunLength(a + b) == RunLength(a)
    ensures (a + b)[..RunLength(a)] == a[..RunLength(a)]
    ensures (a + b)[RunLength(a)..] == a[RunLength(a)..] + b
  {
    if a != [] && IsWordChar(a[0]) {
      assert (a + b)[1..] == a[1..] + b;
      RunOfLonger(a[1..], b);
    }
  }

  /** The word-run reading splits at any junction with a non-word character on one side. */
  lemma {:induction false} ByWordsConcat(a: string, b: string)
    requires Junction(a, b)
    ensures ByWords(a + b) == ByWords(a) + ByWords(b)
    decreases |a|, 1
  {
    if a == [] {
      assert a + b == b;
    } else if !IsWordChar(a[0]) {
      ConcatNonWordHead(a, b);
    } else if RunLength(a) < |a| {
      ConcatPartRun(a, b);
    } else {
      ConcatWholeRun(a, b);
    }
  }

  lemma {:induction false} ConcatNonWordHead(a: string, b: string)
    requires Junction(a, b) && a != [] && !IsWordChar(a[0])
    ensures ByWords(a + b) == ByWords(a) + ByWords(b)
    decreases |a|, 0
  {
    assert (a + b)[0] == a[0];
    assert (a + b)[1..] == a[1..] + b;
    assert Junction(a[1..], b) by {
      if a[1..] != [] { assert a[1..][|a[1..]| - 1] == a[|a| - 1]; }
    }
    ByWordsConcat(a[1..], b);
    var x, y := ByWords(a[1..]), ByWords(b);
    assert ByWords(a + b) == [a[0]] + (x + y);
    Json.Assoc3([a[0]], x, y);
    assert ByWords(a) == [a[0]] + x;
  }

  lemma {:induction false} ConcatPartRun(a: string, b: string)
    requires Junction(a, b) && a != [] && IsWordChar(a[0]) && RunLength(a) < |a|
    ensures ByWords(a + b) == ByWords(a) + ByWords(b)
    decreases |a|, 0
  {
    var m := RunLength(a);
    var d := Dollar(a[..m]);
    assert (a + b)[0] == a[0];
    RunOfLonger(a, b);
    assert Junction(a[m..], b) by { assert a[m..][|a[m..]| - 1] == a[|a| - 1]; }
    ByWordsConcat(a[m..], b);
    var w, x, y := a[..m], ByWords(a[m..]), ByWords(b);
    assert ByWords(a + b) == d + w + (x + y);
    Json.Assoc3(d + w, x, y);
    assert ByWords(a) == d + w + x;
  }

  lemma ConcatWholeRun(a: string, b: string)
    requires Junction(a, b) && a != [] && IsWordChar(a[0]) && RunLength(a) == |a|
    ensures ByWords(a + b) == ByWords(a) + ByWords(b)
  {
    var d := Dollar(a);
    RunIsWord(a);
    assert a[..|a|] == a;
    RunOfConcat(a, b);
    assert a[|a|..] == [];
    calc {
      ByWords(a + b);
      d + a + ByWords(b);
      (d + a + ByWords([])) + ByWords(b);
    }
  }

  lemma ByWordsNoWord(s: string)
    requires NoWord(s)
    ensures ByWords(s) == s
  {
    if s != [] { ByWordsNoWord(s[1..]); }
  }

  lemma ByWordsAllWord(s: string)
    requires s != [] && AllWord(s)
    ensures ByWords(s) == Dollar(s) + s
  {
    RunOfConcat(s, []);
    assert s + [] == s;
  }

  lemma {:induction false} EscapeConcat(a: string, b: string)
    ensures Json.Escape(a + b) == Json.Escape(a) + Json.Escape(b)
  {
    if a != [] {
      EscapeConcat(a[1..], b);
      EscapeCons(a, b);
      Json.Assoc3(Json.EscapeChar(a[0]), Json.Escape(a[1..]), Json.Escape(b));
    } else {
      assert a + b == b;
    }
  }

  lemma EscapeCons(a: string, b: string)
    requires a != []
    ensures Json.Escape(a + b) == Json.EscapeChar(a[0]) + Json.Escape(a[1..] + b)
    ensures Json.Escape(a) == Json.EscapeChar(a[0]) + Json.Escape(a[1..])
  {
    assert (a + b)[0] == a[0] && (a + b)[1..] == a[1..] + b;
  }

  lemma EscapeWordChars(s: string)
    requires AllWord(s)
    ensures Json.Escape(s) == s
  {
    if s != [] { EscapeWordChars(s[1..]); }
  }

  lemma EscapeNonWordFirst(s: string)
    requires s != [] && !IsWordChar(s[0]) && s[0] as int >= 0x20
    ensures Json.Escape(s) != [] && !IsWordChar(Json.Escape(s)[0])
  {
  }

  /** Without control characters, escaping and rewriting commute. */
  lemma {:induction false} ByWordsEscape(s: string)
    requires NoControl(s)
    ensures ByWords(Json.Escape(s)) == Json.Escape(ByWords(s))
    decreases |s|, 1
  {
    if s == [] {
    } else if !IsWordChar(s[0]) {
      EscapeNonWordStep(s);
    } else {
      EscapeRunStep(s);
    }
  }

  lemma EscapeDollar(w: string)
    ensures Json.Escape(Dollar(w)) == Dollar(w)
  {
    if IsOperatorWord(w) {
      assert Json.Escape("$") == Json.EscapeChar('$') + Json.Escape([]);
    }
  }

  lemma {:induction false} EscapeNonWordStep(s: string)
    requires NoControl(s) && s != [] && !IsWordChar(s[0])
    ensures ByWords(Json.Escape(s)) == Json.Escape(ByWords(s))
    decreases |s|, 0
  {
    var e := Json.EscapeChar(s[0]);
    var e1, b1 := Json.Escape(s[1..]), ByWords(s[1..]);
    assert NoWord(e) && e != [];
    assert Json.Escape(s) == e + e1;
    ByWordsConcat(e, e1);
    ByWordsNoWord(e);
    assert NoControl(s[1..]) by {
      forall k | 0 <= k < |s[1..]| ensures s[1..][k] as int >= 0x20 { assert s[1..][k] == s[k + 1]; }
    }
    ByWordsEscape(s[1..]);
    assert ByWords(Json.Escape(s)) == e + Json.Escape(b1);
    assert ByWords(s) == [s[0]] + b1;
    EscapeConcat([s[0]], b1);
    assert Json.Escape([s[0]]) == e + Json.Escape([]);
    assert Json.Escape([s[0]]) == e;
  }

  lemma {:induction false} EscapeRunStep(s: string)
    requires NoControl(s) && s != [] && IsWordChar(s[0])
    ensures ByWords(Json.Escape(s)) == Json.Escape(ByWords(s))
    decreases |s|, 0
  {
    var m := RunLength(s);
    var w, rest := s[..m], s[m..];
    var d := Dollar(w);
    var er, br := Json.Escape(rest), ByWords(rest);
    RunIsWord(s);
    assert s == w + rest;
    EscapeConcat(w, rest);
    EscapeWordChars(w);
    assert Json.Escape(s) == w + er;
    assert Junction(w, er) by {
      if rest != [] {
        assert rest[0] as int >= 0x20 by { assert rest[0] == s[m]; }
        EscapeNonWordFirst(rest);
      }
    }
    ByWordsConcat(w, er);
    ByWordsAllWord(w);
    assert NoControl(rest) by {
      forall k | 0 <= k < |rest| ensures rest[k] as int >= 0x20 { assert rest[k] == s[m + k]; }
    }
    ByWordsEscape(rest);
    assert ByWords(Json.Escape(s)) == (d + w) + Json.Escape(br);
    assert ByWords(s) == (d + w) + br;
    EscapeConcat(d + w, br);
    EscapeConcat(d, w);
    EscapeDollar(w);
  }

  lemma QuoteRewrite(s: string)
    requires NoControl(s)
    ensures ByWords(Json.Quote(s)) == Json.Quote(ByWords(s))
  {
    var e := Json.Escape(s);
    ByWordsConcat("\"", e);
    ByWordsConcat("\"" + e, "\"");
    ByWordsEscape(s);
  }

  /** Rewriting the JSON text of v gives the JSON text of v with its keys and strings rewritten. */
  predicate ValueCommutes(v: Json.JVal) {
    ByWords(Json.Stringify(v)) == Json.Stringify(RewriteValue(v))
  }

  predicate ItemsCommute(items: seq<Json.JVal>) {
    ByWords(Json.StringifyItems(items)) == Json.StringifyItems(RewriteItems(items))
  }

  predicate MembersCommute(ms: seq<Json.Member>) {
    ByWords(Json.StringifyMembers(ms)) == Json.StringifyMembers(RewriteMembers(ms))
  }

  lemma {:induction false} StringifyRewrite(v: Json.JVal)
    requires ValueNoControl(v)
    ensures ValueCommutes(v)
    decreases v, 1
  {
    match v
    case Str(s) =>
      QuoteRewrite(s);
      ReplaceIsByWords(s);
    case Arr(items) =>
      var inner := Json.StringifyItems(items);
      ByWordsConcat("[", inner);
      ByWordsConcat("[" + inner, "]");
      ItemsRewrite(items);
    case Obj(ms) =>
      var inner := Json.StringifyMembers(ms);
      ByWordsConcat("{", inner);
      ByWordsConcat("{" + inner, "}");
      MembersRewrite(ms);
  }

  lemma {:induction false} ItemsRewrite(items: seq<Json.JVal>)
    requires forall i :: 0 <= i < |items| ==> ValueNoControl(items[i])
    ensures ItemsCommute(items)
    decreases items, 0
  {
    if |items| == 1 {
      StringifyRewrite(items[0]);
      ItemsOne(items);
    } else if |items| > 1 {
      StringifyRewrite(items[0]);
      ItemsRewrite(items[1..]);
      ItemsCons(items);
    }
  }

  /** The word-run reading splits at a comma. */
  lemma CommaSplit(a: string, b: string)
    ensures ByWords(a + "," + b) == ByWords(a) + "," + ByWords(b)
  {
    ByWordsConcat(a, ",");
    assert (a + ",")[|a|] == ',';
    ByWordsConcat(a + ",", b);
    ByWordsNoWord(",");
  }

  lemma ItemsOne(items: seq<Json.JVal>)
    requires |items| == 1 && ValueCommutes(items[0])
    ensures ItemsCommute(items)
  {
    assert RewriteItems(items) == [RewriteValue(items[0])];
  }

  lemma ItemsCons(items: seq<Json.JVal>)
    requires |items| > 1 && ValueCommutes(items[0]) && ItemsCommute(items[1..])
    ensures ItemsCommute(items)
  {
    var rw := RewriteItems(items);
    CommaSplit(Json.Stringify(items[0]), Json.StringifyItems(items[1..]));
    assert rw[0] == RewriteValue(items[0]) && rw[1..] == RewriteItems(items[1..]);
  }

  lemma {:induction false} MemberRewrite(m: Json.Member)
    requires NoControl(m.key) && ValueNoControl(m.value)
    ensures ByWords(Json.StringifyMember(m))
      == Json.StringifyMember(Json.Member(ReplaceOperators(m.key), RewriteValue(m.value)))
    decreases m, 0
  {
    var q, v := Json.Quote(m.key), Json.Stringify(m.value);
    assert Json.StringifyMember(m) == q + ":" + v;
    ByWordsConcat(q, ":");
    ByWordsConcat(q + ":", v);
    ByWordsNoWord(":");
    QuoteRewrite(m.key);
    ReplaceIsByWords(m.key);
    StringifyRewrite(m.value);
    assert ByWords(q + ":" + v) == ByWords(q) + ":" + ByWords(v);
  }

  lemma {:induction false} MembersRewrite(ms: seq<Json.Member>)
    requires forall i :: 0 <= i < |ms| ==> NoControl(ms[i].key) && ValueNoControl(ms[i].value)
    ensures MembersCommute(ms)
    decreases ms, 0
  {
    if |ms| == 1 {
      MemberRewrite(ms[0]);
      MembersOne(ms);
    } else if |ms| > 1 {
      MemberRewrite(ms[0]);
      MembersRewrite(ms[1..]);
      MembersCons(ms);
    }
  }

  lemma MembersOne(ms: seq<Json.Member>)
    requires |ms| == 1
    requires ByWords(Json.StringifyMember(ms[0]))
      == Json.StringifyMember(Json.Member(ReplaceOperators(ms[0].key), RewriteValue(ms[0].value)))
    ensures MembersCommute(ms)
  {
    assert RewriteMembers(ms) == [Json.Member(ReplaceOperators(ms[0].key), RewriteValue(ms[0].value))];
  }

  lemma MembersCons(ms: seq<Json.Member>)
    requires |ms| > 1 && MembersCommute(ms[1..])
    requires ByWords(Json.StringifyMember(ms[0]))
      == Json.StringifyMember(Json.Member(ReplaceOperators(ms[0].key), RewriteValue(ms[0].value)))
    ensures MembersCommute(ms)
  {
    var rw := RewriteMembers(ms);
    CommaSplit(Json.StringifyMember(ms[0]), Json.StringifyMembers(ms[1..]));
    assert rw[0] == Json.Member(ReplaceOperators(ms[0].key), RewriteValue(ms[0].value));
    assert rw[1..] == RewriteMembers(ms[1..]);
  }

  /**
   * Parsing the rewritten JSON text of a value gives the value with every key
   * and every string rewritten, provided no control character turns into an
   * escape that runs into a word.
   */
  lemma ParseRewritten(v: Json.JVal)
    requires ValueNoControl(v)
    ensures Json.Parse(ReplaceOperators(Json.Stringify(v))) == Some(RewriteValue(v))
  {
    ReplaceIsByWords(Json.Stringify(v));
    StringifyRewrite(v);
    assert ValueCommutes(v);
    Json.ParseStringify(RewriteValue(v));
  }
}
