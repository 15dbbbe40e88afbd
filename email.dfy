/**
 * The User schema's email pattern
 *
 *     ^\w+([\.-]?\w+)*@\w+([\.-]?\w+)*(\.\w{2,3})+$
 *
 * written twice: once following the pattern's own structure (groups,
 * repetitions, and the split points a backtracking matcher may choose),
 * and once as plain conditions on characters. The lemmas show that the two
 * accept the same strings.
 */
module Email {
  import Operators

  predicate IsSep(c: char) {
    c == '.' || c == '-'
  }

  // ---------------------------------------------------------------------
  // The pattern, group by group

  /** `\w+` */
  predicate WordRun(s: string) {
    |s| > 0 && Operators.AllWord(s)
  }

  /** `[\.-]?\w+` */
  predicate Link(s: string) {
    WordRun(s) || (|s| > 1 && IsSep(s[0]) && WordRun(s[1..]))
  }

  /** `([\.-]?\w+)*` */
  predicate Links(s: string)
    decreases |s|
  {
    s == [] || exists k :: 0 < k <= |s| && Link(s[..k]) && Links(s[k..])
  }

  /** `\w+([\.-]?\w+)*` */
  predicate Joined(s: string) {
    exists k :: 0 < k <= |s| && WordRun(s[..k]) && Links(s[k..])
  }

  /** `\.\w{2,3}` on the first k characters, k being 3 or 4. */
  predicate Group(s: string, k: nat) {
    0 < k <= |s| && s[0] == '.' && Operators.AllWord(s[1..k])
  }

  /** `(\.\w{2,3})+`: a first group of either length, then nothing or more groups. */
  predicate Suffixes(s: string)
    decreases |s|
  {
    || (|s| >= 3 && Group(s, 3) && (|s| == 3 || Suffixes(s[3..])))
    || (|s| >= 4 && Group(s, 4) && (|s| == 4 || Suffixes(s[4..])))
  }

  /** The whole pattern, anchored at both ends. */
  predicate Matches(s: string) {
    exists i, j :: 0 <= i < j <= |s| && s[i] == '@' && Joined(s[..i]) && Joined(s[i + 1..j]) && Suffixes(s[j..])
  }

  // ---------------------------------------------------------------------
  // The same language, character by character

  /** Only word characters and separators, no two separators side by side, and a word character last. */
  predicate TailShape(t: string) {
    t == [] || (
      && Operators.IsWordChar(t[|t| - 1])
      && (forall i :: 0 <= i < |t| ==> Operators.IsWordChar(t[i]) || IsSep(t[i]))
      && (forall i :: 0 <= i < |t| - 1 ==> Operators.IsWordChar(t[i]) || Operators.IsWordChar(t[i + 1])))
  }

  /** Runs of word characters joined by single '.' or '-'. */
  predicate Shape(s: string) {
    |s| > 0 && Operators.IsWordChar(s[0]) && TailShape(s)
  }

  /** Ends with '.' and then two or three word characters. */
  predicate TldEnd(d: string) {
    || (|d| >= 3 && d[|d| - 3] == '.' && Operators.AllWord(d[|d| - 2..]))
    || (|d| >= 4 && d[|d| - 4] == '.' && Operators.AllWord(d[|d| - 3..]))
  }

  /** One '@' with a joined run on each side, the domain ending in a short suffix. */
  predicate EmailShape(s: string) {
    exists i :: 0 <= i < |s| && s[i] == '@' && Shape(s[..i]) && Shape(s[i + 1..]) && TldEnd(s[i + 1..])
  }

  // ---------------------------------------------------------------------
  // Lemmas about the character conditions

  lemma TailShapeConcat(a: string, b: string)
    requires TailShape(a) && TailShape(b)
    ensures TailShape(a + b)
  {
    if a != [] && b != [] {
      var t := a + b;
      forall i | 0 <= i < |t| - 1
        ensures Operators.IsWordChar(t[i]) || Operators.IsWordChar(t[i + 1])
      {
        if i < |a| - 1 {
          assert t[i] == a[i] && t[i + 1] == a[i + 1];
        } else if i == |a| - 1 {
          assert t[i] == a[|a| - 1];
        } else {
          assert t[i] == b[i - |a|] && t[i + 1] == b[i - |a| + 1];
        }
      }
      forall i | 0 <= i < |t|
        ensures Operators.IsWordChar(t[i]) || IsSep(t[i])
      {
        if i < |a| {
          assert t[i] == a[i];
        } else {
          assert t[i] == b[i - |a|];
        }
      }
      assert t[|t| - 1] == b[|b| - 1];
    } else if a == [] {
      assert a + b == b;
    } else {
      assert a + b == a;
    }
  }

  /** Removing a leading word character keeps the shape. */
  lemma TailShapeRest(t: string)
    requires TailShape(t) && |t| > 0
    ensures TailShape(t[1..])
  {
    var r := t[1..];
    if r != [] {
      assert r[|r| - 1] == t[|t| - 1];
      assert forall i :: 0 <= i < |r| ==> r[i] == t[i + 1];
    }
  }

  /** A prefix that ends on a word character keeps the shape. */
  lemma TailShapePrefix(t: string, n: nat)
    requires TailShape(t) && 0 < n <= |t| && Operators.IsWordChar(t[n - 1])
    ensures TailShape(t[..n])
  {
    var p := t[..n];
    assert forall i :: 0 <= i < n ==> p[i] == t[i];
  }

  lemma WordRunShape(w: string)
    requires WordRun(w)
    ensures TailShape(w)
  {
  }

  // ---------------------------------------------------------------------
  // The pattern's groups against the character conditions

  lemma {:induction false} LinksShape(t: string)
    requires Links(t)
    ensures TailShape(t)
    decreases |t|
  {
    if t != [] {
      var k :| 0 < k <= |t| && Link(t[..k]) && Links(t[k..]);
      LinksShape(t[k..]);
      var p := t[..k];
      assert t == p + t[k..];
      if WordRun(p) {
        WordRunShape(p);
      } else {
        var w := p[1..];
        WordRunShape(w);
        assert TailShape(p) by {
          assert forall i :: 0 < i < |p| ==> p[i] == w[i - 1];
          assert p[|p| - 1] == w[|w| - 1];
        }
      }
      TailShapeConcat(p, t[k..]);
    }
  }

  lemma {:induction false} ShapeLinks(t: string)
    requires TailShape(t)
    ensures Links(t)
    decreases |t|
  {
    if t != [] {
      if Operators.IsWordChar(t[0]) {
        TailShapeRest(t);
        ShapeLinks(t[1..]);
        assert Link(t[..1]);
      } else {
        assert IsSep(t[0]);
        assert |t| > 1 && Operators.IsWordChar(t[1]);
        TailShapeRest(t);
        TailShapeRest(t[1..]);
        assert t[1..][1..] == t[2..];
        ShapeLinks(t[2..]);
        assert t[..2][1..] == [t[1]];
        assert Link(t[..2]);
      }
    }
  }

  /** `\w+([\.-]?\w+)*` accepts exactly the joined runs. */
  lemma JoinedIffShape(s: string)
    ensures Joined(s) <==> Shape(s)
  {
    if Joined(s) {
      var k :| 0 < k <= |s| && WordRun(s[..k]) && Links(s[k..]);
      LinksShape(s[k..]);
      WordRunShape(s[..k]);
      assert s == s[..k] + s[k..];
      TailShapeConcat(s[..k], s[k..]);
      assert s[0] == s[..k][0];
    }
    if Shape(s) {
      TailShapeRest(s);
      ShapeLinks(s[1..]);
      assert WordRun(s[..1]);
    }
  }

  /** A '.' followed by word characters has the shape. */
  lemma DotWordsShape(p: string)
    requires |p| >= 2 && p[0] == '.' && Operators.AllWord(p[1..])
    ensures TailShape(p)
  {
    assert forall i :: 0 < i < |p| ==> p[i] == p[1..][i - 1];
  }

  /** The suffix condition only looks at the end. */
  lemma TldEndExtend(p: string, t: string)
    requires TldEnd(t)
    ensures TldEnd(p + t)
  {
    var d := p + t;
    if |t| >= 3 && t[|t| - 3] == '.' && Operators.AllWord(t[|t| - 2..]) {
      assert d[|d| - 3] == t[|t| - 3];
      assert d[|d| - 2..] == t[|t| - 2..];
    } else {
      assert d[|d| - 4] == t[|t| - 4];
      assert d[|d| - 3..] == t[|t| - 3..];
    }
  }

  /** What `(\.\w{2,3})+` accepts has the shape and ends in a short suffix. */
  lemma {:induction false} SuffixesShape(t: string)
    requires Suffixes(t)
    ensures TailShape(t) && TldEnd(t) && t[0] == '.'
    decreases |t|
  {
    var k := if |t| >= 3 && Group(t, 3) && (|t| == 3 || Suffixes(t[3..])) then 3 else 4;
    SuffixHead(t, k);
    if k < |t| {
      var r := t[k..];
      SuffixesShape(r);
      assert t == t[..k] + r;
      TailShapeConcat(t[..k], r);
      TldEndExtend(t[..k], r);
    }
  }

  /** One `\.\w{2,3}` group: it has the shape, and ends the suffix when nothing follows. */
  lemma SuffixHead(t: string, k: int)
    requires 3 <= k <= 4 && Group(t, k)
    ensures TailShape(t[..k]) && (k == |t| ==> TldEnd(t))
  {
    var p := t[..k];
    assert p[1..] == t[1..k];
    DotWordsShape(p);
    if k == |t| {
      assert t[|t| - k + 1..] == t[1..k];
    }
  }

  /** A domain in the character form splits as the pattern needs. */
  lemma DomainMatches(d: string) returns (j: nat)
    requires Shape(d) && TldEnd(d)
    ensures 0 < j <= |d| && Joined(d[..j]) && Suffixes(d[j..])
  {
    var k := if |d| >= 3 && d[|d| - 3] == '.' && Operators.AllWord(d[|d| - 2..]) then 2 else 3;
    j := |d| - k - 1;
    assert d[j] == '.';
    assert j > 0;
    assert Operators.IsWordChar(d[j - 1]);
    TailShapePrefix(d, j);
    assert d[..j][0] == d[0];
    JoinedIffShape(d[..j]);
    var t := d[j..];
    assert t[1..k + 1] == d[|d| - k..];
    assert |t| == k + 1 && Group(t, k + 1);
  }

  /** No '@' can appear inside a joined run. */
  lemma ShapeNoAt(s: string, a: int)
    requires TailShape(s) && 0 <= a < |s|
    ensures s[a] != '@'
  {
  }

  // ---------------------------------------------------------------------
  // The theorems

  lemma MatchesShape(s: string, i: int, j: int)
    requires 0 <= i < j <= |s| && s[i] == '@' && Joined(s[..i]) && Joined(s[i + 1..j]) && Suffixes(s[j..])
    ensures Shape(s[..i]) && Shape(s[i + 1..]) && TldEnd(s[i + 1..])
  {
    JoinedIffShape(s[..i]);
    var r := s[i + 1..j];
    var t := s[j..];
    assert s[i + 1..] == r + t;
    DomainShape(r, t);
  }

  /** A joined run followed by suffixes is a domain in the character form. */
  lemma DomainShape(r: string, t: string)
    requires Joined(r) && Suffixes(t)
    ensures Shape(r + t) && TldEnd(r + t)
  {
    JoinedIffShape(r);
    SuffixesShape(t);
    TailShapeConcat(r, t);
    TldEndExtend(r, t);
    assert (r + t)[0] == r[0];
  }

  lemma ShapeMatches(s: string, i: int)
    requires 0 <= i < |s| && s[i] == '@' && Shape(s[..i]) && Shape(s[i + 1..]) && TldEnd(s[i + 1..])
    ensures Matches(s)
  {
    JoinedIffShape(s[..i]);
    var d := s[i + 1..];
    var j := DomainMatches(d);
    assert s[i + 1..i + 1 + j] == d[..j];
    assert s[i + 1 + j..] == d[j..];
  }

  /** The pattern and the character conditions accept the same strings. */
  lemma MatchesIffShape(s: string)
    ensures Matches(s) <==> EmailShape(s)
  {
    if Matches(s) {
      var i, j :| 0 <= i < j <= |s| && s[i] == '@' && Joined(s[..i]) && Joined(s[i + 1..j]) && Suffixes(s[j..]);
      MatchesShape(s, i, j);
    }
    if EmailShape(s) {
      var i :| 0 <= i < |s| && s[i] == '@' && Shape(s[..i]) && Shape(s[i + 1..]) && TldEnd(s[i + 1..]);
      ShapeMatches(s, i);
    }
  }

  /** An accepted address holds exactly one '@'. */
  lemma OneAt(s: string)
    requires Matches(s)
    ensures exists i :: 0 <= i < |s| && s[i] == '@' && forall a :: 0 <= a < |s| && s[a] == '@' ==> a == i
  {
    MatchesIffShape(s);
    var i :| 0 <= i < |s| && s[i] == '@' && Shape(s[..i]) && Shape(s[i + 1..]) && TldEnd(s[i + 1..]);
    forall a | 0 <= a < |s| && s[a] == '@' ensures a == i {
      OnlyAt(s, i, a);
    }
  }

  /** Beside the '@' that splits an address, every character is a word character or a separator. */
  lemma OnlyAt(s: string, i: int, a: int)
    requires 0 <= i < |s| && Shape(s[..i]) && Shape(s[i + 1..]) && 0 <= a < |s|
    ensures a != i ==> s[a] != '@'
  {
    if a < i {
      assert s[..i][a] == s[a];
      ShapeNoAt(s[..i], a);
    } else if a > i {
      assert s[i + 1..][a - i - 1] == s[a];
      ShapeNoAt(s[i + 1..], a - i - 1);
    }
  }

  /** Whichever '@' one looks at, an accepted address splits there. */
  lemma AtSplits(s: string, a: int)
    requires 0 <= a < |s| && s[a] == '@'
    ensures EmailShape(s) ==> Shape(s[..a]) && Shape(s[a + 1..]) && TldEnd(s[a + 1..])
  {
    if EmailShape(s) {
      var i :| 0 <= i < |s| && s[i] == '@' && Shape(s[..i]) && Shape(s[i + 1..]) && TldEnd(s[i + 1..]);
      OnlyAt(s, i, a);
    }
  }

  lemma SepsBreakShape(t: string, a: int)
    requires 0 <= a && a + 1 < |t| && IsSep(t[a]) && IsSep(t[a + 1])
    ensures !TailShape(t)
  {
  }

  /** Two separators side by side before the '@' are rejected. */
  lemma AdjacentSepsRejected(s: string, a: int, k: int)
    requires 0 <= a && a + 1 < k < |s| && s[k] == '@' && IsSep(s[a]) && IsSep(s[a + 1])
    ensures !Matches(s)
  {
    SepsBreakShape(s[..k], a);
    AtSplits(s, k);
    MatchesIffShape(s);
  }

  /** A domain that does not end in a dot and two or three word characters is rejected. */
  lemma BadSuffixRejected(s: string, k: int)
    requires 0 <= k < |s| && s[k] == '@' && !TldEnd(s[k + 1..])
    ensures !Matches(s)
  {
    AtSplits(s, k);
    MatchesIffShape(s);
  }

  /** Two '@' characters are rejected. */
  lemma TwoAtsRejected(s: string, a: int, b: int)
    requires 0 <= a < b < |s| && s[a] == '@' && s[b] == '@'
    ensures !Matches(s)
  {
    if Matches(s) {
      OneAt(s);
      assert false;
    }
  }

  lemma LocalExample()
    ensures Shape("j.d")
  {
    WordRunShape("j");
    DotWordsShape(".d");
    assert "j.d" == "j" + ".d";
    TailShapeConcat("j", ".d");
  }

  lemma DomainExample()
    ensures Shape("m-h.co.uk") && TldEnd("m-h.co.uk")
  {
    DotWordsShape(".co");
    DotWordsShape(".uk");
    assert ".co.uk" == ".co" + ".uk";
    TailShapeConcat(".co", ".uk");
    assert TailShape("-h") by {
      assert "-h"[1..] == "h";
    }
    TailShapeConcat("-h", ".co.uk");
    WordRunShape("m");
    assert "m-h.co.uk" == "m" + ("-h" + ".co.uk");
    TailShapeConcat("m", "-h.co.uk");
    assert "m-h.co.uk"[7..] == "uk";
  }

  /** A dotted, hyphenated address with a two-level suffix is accepted. */
  lemma AcceptsExample()
    ensures Matches("j.d@m-h.co.uk")
  {
    var s := "j.d@m-h.co.uk";
    assert s[..3] == "j.d" && s[4..] == "m-h.co.uk";
    LocalExample();
    DomainExample();
    ShapeMatches(s, 3);
  }

  /** "..", a four-letter suffix and a second '@' are each rejected. */
  lemma RejectsExamples()
    ensures !Matches("a..b@c.com")
    ensures !Matches("a@b.info")
    ensures !Matches("a@b@c.com")
  {
    AdjacentSepsRejected("a..b@c.com", 1, 4);
    assert "a@b.info"[2..] == "b.info";
    BadSuffixRejected("a@b.info", 1);
    TwoAtsRejected("a@b@c.com", 1, 3);
  }
}
