/** The e-mail pattern that the user and message schemas share,
      /^\w+([\.-]?\w+)*@\w+([\.-]?\w+)*(\.\w{2,3})+$/
    read twice: once as the regular expression it is (the ghost predicates
    below, one per sub-expression), and once as a hand-rolled recognizer
    (IsEmail) that checks the shape of the string directly. The two are proved
    to accept exactly the same strings, and the shape facts are then stated
    about the pattern itself. */
module EmailPattern {

  /** `\w` in a JavaScript regular expression without the `u` flag. */
  predicate IsWordChar(c: char) {
    ('a' <= c <= 'z') || ('A' <= c <= 'Z') || ('0' <= c <= '9') || c == '_'
  }

  /** The character class `[\.-]`. */
  predicate IsSeparator(c: char) {
    c == '.' || c == '-'
  }

  // ------------------------------------------------------------------
  // The regular expression, sub-expression by sub-expression.
  // ------------------------------------------------------------------

  /** `\w+` */
  ghost predicate WordRun(s: string) {
    |s| > 0 && forall i :: 0 <= i < |s| ==> IsWordChar(s[i])
  }

  /** `[\.-]?\w+` */
  ghost predicate Segment(s: string) {
    WordRun(s) || (|s| > 0 && IsSeparator(s[0]) && WordRun(s[1..]))
  }

  /** `([\.-]?\w+)*` */
  ghost predicate Segments(s: string)
    decreases |s|
  {
    s == [] || exists i :: 0 < i <= |s| && Segment(s[..i]) && Segments(s[i..])
  }

  /** `\w+([\.-]?\w+)*`, the part before `@` and the start of the part after it. */
  ghost predicate Label(s: string) {
    exists i :: 0 < i <= |s| && WordRun(s[..i]) && Segments(s[i..])
  }

  /** `\.\w{2,3}` */
  ghost predicate Suffix(s: string) {
    (|s| == 3 || |s| == 4) && s[0] == '.' && WordRun(s[1..])
  }

  /** `(\.\w{2,3})+` */
  ghost predicate Suffixes(s: string)
    decreases |s|
  {
    exists i :: 0 < i <= |s| && Suffix(s[..i]) && (i == |s| || Suffixes(s[i..]))
  }

  /** `\w+([\.-]?\w+)*(\.\w{2,3})+` */
  ghost predicate Domain(s: string) {
    exists i :: 0 < i < |s| && Label(s[..i]) && Suffixes(s[i..])
  }

  /** The whole anchored pattern `^…@…$`. */
  ghost predicate Matches(s: string) {
    exists k :: 0 <= k < |s| && s[k] == '@' && Label(s[..k]) && Domain(s[k + 1..])
  }

  // ------------------------------------------------------------------
  // The recognizer.
  // ------------------------------------------------------------------

  /** Every character is a word character or a separator. */
  predicate OverLabelAlphabet(s: string) {
    forall i :: 0 <= i < |s| ==> IsWordChar(s[i]) || IsSeparator(s[i])
  }

  /** No separator follows another separator. */
  predicate NoAdjacentSeparators(s: string) {
    forall i :: 0 < i < |s| && IsSeparator(s[i]) ==> !IsSeparator(s[i - 1])
  }

  /** A dot-or-dash separated run of word characters that starts and ends with
      a word character. */
  predicate IsLabel(s: string) {
    && |s| > 0
    && IsWordChar(s[0])
    && IsWordChar(s[|s| - 1])
    && OverLabelAlphabet(s)
    && NoAdjacentSeparators(s)
  }

  /** s ends with a '.' followed by exactly n word characters. */
  predicate EndsWithTopLevel(s: string, n: nat) {
    && |s| > n
    && s[|s| - n - 1] == '.'
    && forall i :: |s| - n <= i < |s| ==> IsWordChar(s[i])
  }

  /** A label whose last separator is a '.' followed by two or three word characters. */
  predicate IsDomain(s: string) {
    IsLabel(s) && (EndsWithTopLevel(s, 2) || EndsWithTopLevel(s, 3))
  }

  /** The index of the first '@' in s, or |s| when there is none. */
  function FirstAt(s: string): (k: nat)
    ensures k <= |s|
    ensures k < |s| ==> s[k] == '@'
    ensures forall i :: 0 <= i < k ==> s[i] != '@'
  {
    if s == [] then 0
    else if s[0] == '@' then 0
    else 1 + FirstAt(s[1..])
  }

  /** The recognizer: a label, then '@', then a domain. */
  predicate IsEmail(s: string) {
    var k := FirstAt(s);
    k < |s| && IsLabel(s[..k]) && IsDomain(s[k + 1..])
  }

  /** Mongoose's `match` validator with this pattern: it lets the empty string
      through (the `required` validator is the one that rejects it) and tests
      the pattern on every other value. */
  predicate MatchValidator(v: string) {
    v == "" || IsEmail(v)
  }

  // ------------------------------------------------------------------
  // The recognizer accepts exactly the strings the pattern matches.
  // ------------------------------------------------------------------

  /** What `([\.-]?\w+)*` accepts: the empty string, or a string over the label
      alphabet that ends with a word character and has no two separators in a row. */
  ghost predicate SegmentsShape(s: string) {
    s == [] || (IsWordChar(s[|s| - 1]) && OverLabelAlphabet(s) && NoAdjacentSeparators(s))
  }

  /** A label-alphabet string with no two separators in a row, keeps both
      properties when a string with the same properties is glued after it,
      provided the first one ends with a word character. */
  lemma Glue(a: string, b: string)
    requires |a| > 0 && IsWordChar(a[|a| - 1]) && OverLabelAlphabet(a) && NoAdjacentSeparators(a)
    requires OverLabelAlphabet(b) && NoAdjacentSeparators(b)
    ensures OverLabelAlphabet(a + b) && NoAdjacentSeparators(a + b)
  {
    var s := a + b;
    forall i | 0 <= i < |s| ensures IsWordChar(s[i]) || IsSeparator(s[i]) {
      if i >= |a| { assert s[i] == b[i - |a|]; }
    }
    forall i | 0 < i < |s| && IsSeparator(s[i]) ensures !IsSeparator(s[i - 1]) {
      if i > |a| { assert s[i] == b[i - |a|] && s[i - 1] == b[i - 1 - |a|]; }
      else if i == |a| { assert s[i - 1] == a[|a| - 1]; }
      else { assert s[i] == a[i] && s[i - 1] == a[i - 1]; }
    }
  }

  /** Both properties survive taking a slice. */
  lemma Slice(s: string, i: nat, j: nat)
    requires i <= j <= |s|
    requires OverLabelAlphabet(s) && NoAdjacentSeparators(s)
    ensures OverLabelAlphabet(s[i..j]) && NoAdjacentSeparators(s[i..j])
  {
    var t := s[i..j];
    forall k | 0 <= k < |t| ensures IsWordChar(t[k]) || IsSeparator(t[k]) { assert t[k] == s[i + k]; }
    forall k | 0 < k < |t| && IsSeparator(t[k]) ensures !IsSeparator(t[k - 1]) {
      assert t[k] == s[i + k] && t[k - 1] == s[i + k - 1];
    }
  }

  /** A top-level label at the end of b is still at the end of a + b. */
  lemma TopLevelOfSuffix(a: string, b: string, n: nat)
    requires EndsWithTopLevel(b, n)
    ensures EndsWithTopLevel(a + b, n)
  {
    var s := a + b;
    assert s[|s| - n - 1] == b[|b| - n - 1];
    forall j | |s| - n <= j < |s| ensures IsWordChar(s[j]) { assert s[j] == b[j - |a|]; }
  }

  /** A word run is a label-alphabet string with no separator at all. */
  lemma WordRunShape(s: string)
    requires WordRun(s)
    ensures IsWordChar(s[|s| - 1]) && OverLabelAlphabet(s) && NoAdjacentSeparators(s)
  {
  }

  lemma SegmentShape(p: string)
    requires Segment(p)
    ensures IsWordChar(p[|p| - 1]) && OverLabelAlphabet(p) && NoAdjacentSeparators(p)
  {
    if !WordRun(p) {
      var w := p[1..];
      WordRunShape(w);
      assert |[p[0]]| > 0;
      Glue2([p[0]], w);
      assert [p[0]] + w == p;
    }
  }

  /** A single separator followed by a word run. */
  lemma Glue2(a: string, w: string)
    requires |a| == 1 && IsSeparator(a[0])
    requires WordRun(w)
    ensures IsWordChar((a + w)[|a + w| - 1]) && OverLabelAlphabet(a + w) && NoAdjacentSeparators(a + w)
  {
    var s := a + w;
    assert s[|s| - 1] == w[|w| - 1];
    forall i | 0 <= i < |s| ensures IsWordChar(s[i]) || IsSeparator(s[i]) {
      if i >= 1 { assert s[i] == w[i - 1]; }
    }
    forall i | 0 < i < |s| ensures !IsSeparator(s[i]) {
      assert s[i] == w[i - 1];
    }
  }

  lemma {:induction false} SegmentsImpliesShape(s: string)
    requires Segments(s)
    ensures SegmentsShape(s)
    decreases |s|
  {
    if s != [] {
      var i :| 0 < i <= |s| && Segment(s[..i]) && Segments(s[i..]);
      var p, q := s[..i], s[i..];
      assert p + q == s;
      SegmentsImpliesShape(q);
      SegmentShape(p);
      Glue(p, q);
      if q != [] { assert s[|s| - 1] == q[|q| - 1]; }
    }
  }

  lemma {:induction false} ShapeImpliesSegments(s: string)
    requires SegmentsShape(s)
    ensures Segments(s)
    decreases |s|
  {
    if s != [] {
      var i := if IsWordChar(s[0]) then 1 else 2;
      if i == 2 {
        assert !IsWordChar(s[0]) && IsWordChar(s[|s| - 1]);
        assert IsSeparator(s[0]);
        assert IsWordChar(s[1]);
        assert s[..2][1..] == [s[1]];
      } else {
        assert WordRun(s[..1]);
      }
      assert Segment(s[..i]);
      var t := s[i..];
      Slice(s, i, |s|);
      if t != [] { assert t[|t| - 1] == s[|s| - 1]; }
      ShapeImpliesSegments(t);
    }
  }

  lemma LabelImpliesShape(s: string)
    requires Label(s)
    ensures IsLabel(s)
  {
    var i :| 0 < i <= |s| && WordRun(s[..i]) && Segments(s[i..]);
    var p, q := s[..i], s[i..];
    assert p + q == s;
    SegmentsImpliesShape(q);
    WordRunShape(p);
    Glue(p, q);
    assert s[0] == p[0];
    if q != [] { assert s[|s| - 1] == q[|q| - 1]; }
  }

  lemma ShapeImpliesLabel(s: string)
    requires IsLabel(s)
    ensures Label(s)
  {
    assert WordRun(s[..1]);
    var t := s[1..];
    Slice(s, 1, |s|);
    assert s[1..|s|] == t;
    if t != [] { assert t[|t| - 1] == s[|s| - 1]; }
    assert SegmentsShape(t);
    ShapeImpliesSegments(t);
    assert s[1..] == t;
  }

  /** What `\.\w{2,3}` is as a shape. */
  lemma SuffixShape(p: string)
    requires Suffix(p)
    ensures IsWordChar(p[|p| - 1]) && OverLabelAlphabet(p) && NoAdjacentSeparators(p)
    ensures EndsWithTopLevel(p, |p| - 1)
  {
    Glue2(p[..1], p[1..]);
    assert p[..1] + p[1..] == p;
    forall j | 1 <= j < |p| ensures IsWordChar(p[j]) { assert p[j] == p[1..][j - 1]; }
  }

  /** What `(\.\w{2,3})+` forces: a '.'-led label-alphabet string with no two
      separators in a row, ending with a '.' and two or three word characters. */
  lemma {:induction false} SuffixesShape(s: string)
    requires Suffixes(s)
    ensures |s| > 0 && s[0] == '.' && IsWordChar(s[|s| - 1])
    ensures OverLabelAlphabet(s) && NoAdjacentSeparators(s)
    ensures EndsWithTopLevel(s, 2) || EndsWithTopLevel(s, 3)
    decreases |s|
  {
    var i :| 0 < i <= |s| && Suffix(s[..i]) && (i == |s| || Suffixes(s[i..]));
    var p, q := s[..i], s[i..];
    assert p + q == s;
    SuffixShape(p);
    if i == |s| {
      assert p == s;
    } else {
      SuffixesShape(q);
      Glue(p, q);
      assert s[0] == p[0] && s[|s| - 1] == q[|q| - 1];
      if EndsWithTopLevel(q, 2) { TopLevelOfSuffix(p, q, 2); } else { TopLevelOfSuffix(p, q, 3); }
    }
  }

  lemma DomainImpliesShape(s: string)
    requires Domain(s)
    ensures IsDomain(s)
  {
    var i :| 0 < i < |s| && Label(s[..i]) && Suffixes(s[i..]);
    var a, b := s[..i], s[i..];
    assert a + b == s;
    LabelImpliesShape(a);
    SuffixesShape(b);
    Glue(a, b);
    assert s[0] == a[0] && s[|s| - 1] == b[|b| - 1];
    if EndsWithTopLevel(b, 2) { TopLevelOfSuffix(a, b, 2); } else { TopLevelOfSuffix(a, b, 3); }
  }

  lemma ShapeImpliesDomain(s: string)
    requires IsDomain(s)
    ensures Domain(s)
  {
    var n := if EndsWithTopLevel(s, 2) then 2 else 3;
    assert EndsWithTopLevel(s, n);
    var j := |s| - n - 1;
    assert s[j] == '.' && IsWordChar(s[0]);
    assert j > 0;
    assert IsSeparator(s[j]) ==> !IsSeparator(s[j - 1]);
    var a, b := s[..j], s[j..];
    Slice(s, 0, j);
    assert a[0] == s[0] && a[|a| - 1] == s[j - 1];
    assert IsLabel(a);
    ShapeImpliesLabel(a);
    assert b[..|b|] == b;
    forall t | 0 <= t < |b[1..]| ensures IsWordChar(b[1..][t]) { assert b[1..][t] == s[j + 1 + t]; }
    assert Suffix(b[..|b|]);
    assert Suffixes(b);
    assert s[..j] == a && s[j..] == b;
  }

  lemma MatchesIff(s: string)
    ensures Matches(s) <==> IsEmail(s)
  {
    if Matches(s) { MatchesImpliesEmail(s); }
    if IsEmail(s) { EmailImpliesMatches(s); }
  }

  lemma MatchesImpliesEmail(s: string)
    requires Matches(s)
    ensures IsEmail(s)
  {
    var k :| 0 <= k < |s| && s[k] == '@' && Label(s[..k]) && Domain(s[k + 1..]);
    LabelImpliesShape(s[..k]);
    DomainImpliesShape(s[k + 1..]);
    EmailAt(s, k);
  }

  /** A label, an '@' at k and a domain make an address the recognizer accepts. */
  lemma EmailAt(s: string, k: nat)
    requires k < |s| && s[k] == '@' && IsLabel(s[..k]) && IsDomain(s[k + 1..])
    ensures IsEmail(s)
  {
    var a := s[..k];
    forall i | 0 <= i < k ensures s[i] != '@' {
      assert s[i] == a[i];
      assert IsWordChar(a[i]) || IsSeparator(a[i]);
    }
    FirstAtIs(s, k);
  }

  lemma EmailImpliesMatches(s: string)
    requires IsEmail(s)
    ensures Matches(s)
  {
    var f := FirstAt(s);
    ShapeImpliesLabel(s[..f]);
    ShapeImpliesDomain(s[f + 1..]);
  }

  // ------------------------------------------------------------------
  // What every address the pattern accepts looks like.
  // ------------------------------------------------------------------

  /** An accepted address contains exactly one '@'. */
  lemma ExactlyOneAt(s: string)
    requires Matches(s)
    ensures multiset(s)['@'] == 1
  {
    MatchesImpliesEmail(s);
    OneAtInEmail(s);
  }

  lemma OneAtInEmail(s: string)
    requires IsEmail(s)
    ensures multiset(s)['@'] == 1
  {
    var k := FirstAt(s);
    var a, d := s[..k], s[k + 1..];
    assert s == a + ['@'] + d;
    NoAtInLabel(a);
    NoAtInLabel(d);
    assert multiset(s) == multiset(a) + multiset{'@'} + multiset(d);
  }

  /** A string over the label alphabet has no '@'. */
  lemma NoAtInLabel(a: string)
    requires OverLabelAlphabet(a)
    ensures multiset(a)['@'] == 0
  {
    forall t | 0 <= t < |a| ensures a[t] != '@' { assert IsSeparator(a[t]) || IsWordChar(a[t]); }
    assert '@' !in a;
  }

  /** Every character of an accepted address other than its '@' is a word
      character, '.' or '-'. */
  lemma Alphabet(s: string)
    requires Matches(s)
    ensures forall i :: 0 <= i < |s| && s[i] != '@' ==> IsWordChar(s[i]) || IsSeparator(s[i])
  {
    MatchesImpliesEmail(s);
    var k := FirstAt(s);
    var a, d := s[..k], s[k + 1..];
    forall i | 0 <= i < |s| && s[i] != '@' ensures IsWordChar(s[i]) || IsSeparator(s[i]) {
      if i < k { assert s[i] == a[i]; } else { assert i > k; assert s[i] == d[i - k - 1]; }
    }
  }

  /** An accepted address begins and ends with a word character, and every
      character that is not a word character ('@', '.' or '-') sits between two
      word characters: no separator touches another separator or the '@'. */
  lemma WordCharsAround(s: string)
    requires Matches(s)
    ensures |s| > 0 && IsWordChar(s[0]) && IsWordChar(s[|s| - 1])
    ensures forall i :: 0 <= i < |s| && !IsWordChar(s[i]) ==>
              0 < i < |s| - 1 && IsWordChar(s[i - 1]) && IsWordChar(s[i + 1])
  {
    MatchesImpliesEmail(s);
    var k := FirstAt(s);
    var a, d := s[..k], s[k + 1..];
    assert s[0] == a[0] && s[|s| - 1] == d[|d| - 1];
    assert s[k - 1] == a[|a| - 1] && s[k + 1] == d[0];
    forall i | 0 <= i < |s| && !IsWordChar(s[i])
      ensures 0 < i < |s| - 1 && IsWordChar(s[i - 1]) && IsWordChar(s[i + 1])
    {
      if i < k {
        assert s[i] == a[i] && IsSeparator(a[i]);
        assert i != 0 && i != |a| - 1;
        assert s[i - 1] == a[i - 1] && s[i + 1] == a[i + 1];
        assert !IsSeparator(a[i - 1]);
      } else if i > k {
        var t := i - k - 1;
        assert s[i] == d[t] && IsSeparator(d[t]);
        assert t != 0 && t != |d| - 1;
        assert s[i - 1] == d[t - 1] && s[i + 1] == d[t + 1];
        assert !IsSeparator(d[t - 1]);
      }
    }
  }

  /** An accepted address ends with '.' and a final label of two or three word
      characters. */
  lemma TopLevelLabel(s: string)
    requires Matches(s)
    ensures EndsWithTopLevel(s, 2) || EndsWithTopLevel(s, 3)
  {
    MatchesImpliesEmail(s);
    var k := FirstAt(s);
    var d := s[k + 1..];
    if EndsWithTopLevel(d, 2) {
      assert s[|s| - 3] == d[|d| - 3];
      forall j | |s| - 2 <= j < |s| ensures IsWordChar(s[j]) { assert s[j] == d[j - k - 1]; }
      assert EndsWithTopLevel(s, 2);
    } else {
      assert s[|s| - 4] == d[|d| - 4];
      forall j | |s| - 3 <= j < |s| ensures IsWordChar(s[j]) { assert s[j] == d[j - k - 1]; }
      assert EndsWithTopLevel(s, 3);
    }
  }

  /** "a@b.com" is accepted. */
  lemma AcceptsShortAddress()
    ensures Matches("a@b.com")
  {
    var s := "a@b.com";
    assert s[1..][0] == '@';
    assert FirstAt(s) == 1;
    assert s[..1] == "a" && s[2..] == "b.com";
    assert IsLabel("a");
    assert EndsWithTopLevel("b.com", 3);
    assert IsDomain("b.com");
    MatchesIff(s);
  }

  /** "a.b-c@d.co" is accepted: separators inside the local part are fine. */
  lemma AcceptsSeparatedLocalPart()
    ensures Matches("a.b-c@d.co")
  {
    var s := "a.b-c@d.co";
    assert FirstAt(s) == 5 by {
      assert s[5] == '@';
      assert forall i :: 0 <= i < 5 ==> s[i] != '@';
      FirstAtIs(s, 5);
    }
    assert s[..5] == "a.b-c" && s[6..] == "d.co";
    SeparatedLabel();
    ShortDomain();
    MatchesIff(s);
  }

  lemma SeparatedLabel()
    ensures IsLabel("a.b-c")
  {
  }

  lemma ShortDomain()
    ensures IsDomain("d.co")
  {
    assert EndsWithTopLevel("d.co", 2);
  }

  /** FirstAt finds the first '@'. */
  lemma FirstAtIs(s: string, k: nat)
    requires k < |s| && s[k] == '@'
    requires forall i :: 0 <= i < k ==> s[i] != '@'
    ensures FirstAt(s) == k
  {
  }

  /** "ab.com" has no '@' and is rejected. */
  lemma RejectsMissingAt()
    ensures !Matches("ab.com")
  {
    var s := "ab.com";
    assert '@' !in s;
    MatchesIff(s);
  }

  /** "a@b.c" ends with a one-character label and is rejected. */
  lemma RejectsShortTopLevel()
    ensures !Matches("a@b.c")
  {
    var s := "a@b.c";
    assert s[1..][0] == '@';
    assert FirstAt(s) == 1;
    assert s[2..] == "b.c";
    assert !EndsWithTopLevel("b.c", 2) && !EndsWithTopLevel("b.c", 3);
    MatchesIff(s);
  }

  /** "a@b.abcd" ends with a four-character label and is rejected. */
  lemma RejectsLongTopLevel()
    ensures !Matches("a@b.abcd")
  {
    var s := "a@b.abcd";
    assert s[1..][0] == '@';
    assert FirstAt(s) == 1;
    assert s[2..] == "b.abcd";
    assert !EndsWithTopLevel("b.abcd", 2) && !EndsWithTopLevel("b.abcd", 3);
    MatchesIff(s);
  }
}
