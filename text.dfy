/** ASCII models of the Python string primitives the query classifier relies on:
    str.lower, str.strip, str.split() without arguments, the `in` substring test,
    and re.search of a pattern of the form \b(alt|alt|...)\b. */
module Text {

  /** Python's str.isspace restricted to ASCII: space, \t \n \v \f \r and the
      four separator controls \x1c-\x1f. */
  predicate IsSpace(c: char) {
    c == ' ' || ('\t' <= c <= '\r') || ('\U{1C}' <= c <= '\U{1F}')
  }

  /** A character that \w matches (on ASCII): letters, digits and underscore. */
  predicate IsWordChar(c: char) {
    ('a' <= c <= 'z') || ('A' <= c <= 'Z') || ('0' <= c <= '9') || c == '_'
  }

  function LowerChar(c: char): (d: char)
    ensures !('A' <= d <= 'Z')
    ensures IsSpace(d) <==> IsSpace(c)
  {
    if 'A' <= c <= 'Z' then (c as int + 32) as char else c
  }

  /** str.lower on ASCII text: every upper-case letter becomes its lower-case form. */
  function Lower(s: string): (r: string)
    ensures |r| == |s|
    ensures forall i :: 0 <= i < |r| ==> r[i] == LowerChar(s[i])
  {
    seq(|s|, i requires 0 <= i < |s| => LowerChar(s[i]))
  }

  function DropLeadingSpace(s: string): (r: string)
    ensures |r| <= |s| && r == s[|s| - |r|..]
    ensures r == [] || !IsSpace(r[0])
    ensures forall i :: 0 <= i < |s| - |r| ==> IsSpace(s[i])
  {
    if s != [] && IsSpace(s[0]) then DropLeadingSpace(s[1..]) else s
  }

  function DropTrailingSpace(s: string): (r: string)
    ensures |r| <= |s| && r == s[..|r|]
    ensures r == [] || !IsSpace(r[|r| - 1])
    ensures forall i :: |r| <= i < |s| ==> IsSpace(s[i])
  {
    if s != [] && IsSpace(s[|s| - 1]) then DropTrailingSpace(s[..|s| - 1]) else s
  }

  /** r is the slice of s starting at i, and everything of s outside it is whitespace. */
  predicate StripsTo(s: string, r: string, i: int) {
    && 0 <= i <= |s| - |r|
    && r == s[i..i + |r|]
    && (forall k :: 0 <= k < i ==> IsSpace(s[k]))
    && (forall k :: i + |r| <= k < |s| ==> IsSpace(s[k]))
  }

  /** str.strip(): the text between the leading and the trailing whitespace. */
  function Strip(s: string): (r: string)
    ensures |r| <= |s|
    ensures r == [] || (!IsSpace(r[0]) && !IsSpace(r[|r| - 1]))
    ensures r == [] <==> forall i :: 0 <= i < |s| ==> IsSpace(s[i])
    ensures exists i :: StripsTo(s, r, i)
  {
    var t := DropLeadingSpace(s);
    var r := DropTrailingSpace(t);
    var i := |s| - |t|;
    assert r == s[i..i + |r|];
    assert forall k :: i + |r| <= k < |s| ==> s[k] == t[k - i];
    assert StripsTo(s, r, i);
    r
  }

  /** The longest prefix of s that holds no whitespace. */
  function TakeWord(s: string): (w: string)
    ensures |w| <= |s| && w == s[..|w|]
    ensures forall i :: 0 <= i < |w| ==> !IsSpace(w[i])
    ensures |w| == |s| || IsSpace(s[|w|])
  {
    if s == [] || IsSpace(s[0]) then [] else [s[0]] + TakeWord(s[1..])
  }

  /** A non-empty run of non-whitespace characters. */
  predicate IsWord(w: string) {
    w != [] && forall i :: 0 <= i < |w| ==> !IsSpace(w[i])
  }

  /** str.split() without arguments: the maximal runs of non-whitespace, in order. */
  function Split(s: string): seq<string>
    decreases |s|
  {
    var t := DropLeadingSpace(s);
    if t == [] then []
    else
      var w := TakeWord(t);
      assert w != [] by { assert !IsSpace(t[0]); }
      [w] + Split(t[|w|..])
  }

  /** Every token of Split is a non-empty run of non-whitespace characters. */
  lemma {:induction false} SplitYieldsWords(s: string)
    ensures forall k :: 0 <= k < |Split(s)| ==> IsWord(Split(s)[k])
    decreases |s|
  {
    var t := DropLeadingSpace(s);
    if t != [] {
      var w := TakeWord(t);
      assert IsWord(w) by { assert !IsSpace(t[0]); }
      var rest := Split(t[|w|..]);
      SplitYieldsWords(t[|w|..]);
      assert Split(s) == [w] + rest;
      forall k | 0 <= k < |Split(s)|
        ensures IsWord(Split(s)[k])
      {
        if k > 0 {
          assert Split(s)[k] == rest[k - 1];
        }
      }
    }
  }

  /** Split finds no word exactly when the text is all whitespace. */
  lemma {:induction false} SplitEmptyIffBlank(s: string)
    ensures Split(s) == [] <==> forall i :: 0 <= i < |s| ==> IsSpace(s[i])
  {
    var t := DropLeadingSpace(s);
    if t != [] {
      assert s[|s| - |t|] == t[0];
    }
  }

  lemma {:induction false} TakeWordOfWord(w: string, rest: string)
    requires forall i :: 0 <= i < |w| ==> !IsSpace(w[i])
    requires rest == [] || IsSpace(rest[0])
    ensures TakeWord(w + rest) == w
  {
    if w != [] {
      assert (w + rest)[1..] == w[1..] + rest;
      TakeWordOfWord(w[1..], rest);
    }
  }

  /** Splitting a word followed by whitespace (or nothing) yields that word first. */
  lemma {:induction false} SplitCons(w: string, rest: string)
    requires IsWord(w)
    requires rest == [] || IsSpace(rest[0])
    ensures Split(w + rest) == [w] + Split(rest)
  {
    var s := w + rest;
    assert s[0] == w[0];
    assert DropLeadingSpace(s) == s;
    TakeWordOfWord(w, rest);
    assert s[|w|..] == rest;
  }

  /** A word, a blank and the rest: the word comes first, then the words of the rest. */
  lemma {:induction false} SplitWordSpace(w: string, t: string)
    requires IsWord(w)
    ensures Split(w + " " + t) == [w] + Split(t)
  {
    assert w + " " + t == w + ([' '] + t);
    SplitCons(w, [' '] + t);
    SplitSkipsSpace(' ', t);
  }

  /** Three words separated by single blanks, then the rest. */
  lemma {:induction false} SplitThreeWords(a: string, b: string, c: string, t: string)
    requires IsWord(a) && IsWord(b) && IsWord(c)
    ensures |Split(a + " " + (b + " " + (c + " " + t)))| == 3 + |Split(t)|
  {
    var t2 := c + " " + t;
    var t1 := b + " " + t2;
    SplitWordSpace(c, t);
    SplitWordSpace(b, t2);
    SplitWordSpace(a, t1);
  }

  /** Three words separated by single blanks, then text that is not all whitespace:
      at least four words. */
  lemma {:induction false} SplitAtLeastFourWords(a: string, b: string, c: string, t: string)
    requires IsWord(a) && IsWord(b) && IsWord(c)
    requires t != [] && !IsSpace(t[0])
    ensures |Split(a + " " + (b + " " + (c + " " + t)))| >= 4
  {
    SplitThreeWords(a, b, c, t);
    SplitEmptyIffBlank(t);
  }

  /** Leading whitespace does not change the split. */
  lemma {:induction false} SplitSkipsSpace(c: char, rest: string)
    requires IsSpace(c)
    ensures Split([c] + rest) == Split(rest)
  {
    assert ([c] + rest)[1..] == rest;
  }

  /** Lower-casing and stripping all-whitespace text leaves nothing. */
  lemma {:induction false} BlankNormalizesToEmpty(s: string)
    requires forall i :: 0 <= i < |s| ==> IsSpace(s[i])
    ensures Strip(Lower(s)) == []
  {
    var l := Lower(s);
    assert forall i :: 0 <= i < |l| ==> IsSpace(l[i]);
  }

  /** k occurs in s starting at index i. */
  predicate OccursAt(s: string, k: string, i: int) {
    0 <= i && i + |k| <= |s| && s[i..i + |k|] == k
  }

  function ContainsFrom(s: string, k: string, i: nat): (r: bool)
    ensures r <==> exists j :: i <= j && OccursAt(s, k, j)
    decreases |s| - i
  {
    if i + |k| > |s| then false
    else OccursAt(s, k, i) || ContainsFrom(s, k, i + 1)
  }

  /** Python's `k in s` for strings: k is a substring of s. */
  function Contains(s: string, k: string): (r: bool)
    ensures r <==> exists j :: OccursAt(s, k, j)
  {
    ContainsFrom(s, k, 0)
  }

  /** The zero-width assertion \b at position p: a word character on exactly one side. */
  predicate AtWordBoundary(s: string, p: int)
    requires 0 <= p <= |s|
  {
    (0 < p && IsWordChar(s[p - 1])) != (p < |s| && IsWordChar(s[p]))
  }

  /** \b alt \b matches at index i. */
  predicate PhraseAt(s: string, alt: string, i: int) {
    OccursAt(s, alt, i) && AtWordBoundary(s, i) && AtWordBoundary(s, i + |alt|)
  }

  /** re.search(r"\b(a0|a1|...)\b", s) finds a match: the specification. */
  ghost predicate GroupOccurs(s: string, alts: seq<string>) {
    exists i, k :: 0 <= k < |alts| && PhraseAt(s, alts[k], i)
  }

  /** Tries the alternatives in order at one start index, as the regex engine does. */
  function GroupMatchesAt(s: string, alts: seq<string>, i: int): (r: bool)
    ensures r <==> exists k :: 0 <= k < |alts| && PhraseAt(s, alts[k], i)
    decreases |alts|
  {
    if alts == [] then false
    else PhraseAt(s, alts[0], i) || GroupMatchesAt(s, alts[1..], i)
  }

  function SearchFrom(s: string, alts: seq<string>, i: nat): (r: bool)
    requires i <= |s|
    ensures r <==> exists j, k :: i <= j && 0 <= k < |alts| && PhraseAt(s, alts[k], j)
    decreases |s| - i
  {
    GroupMatchesAt(s, alts, i) || (i < |s| && SearchFrom(s, alts, i + 1))
  }

  /** re.search of \b(alts)\b: a left-to-right scan over the start positions. */
  function Search(s: string, alts: seq<string>): (r: bool)
    ensures r <==> GroupOccurs(s, alts)
  {
    SearchFrom(s, alts, 0)
  }

  /** For alternatives that begin and end with a word character, \b at both ends
      means: the neighbour on each side is a non-word character or the string edge. */
  lemma PhraseAtDelimited(s: string, alt: string, i: int)
    requires alt != [] && IsWordChar(alt[0]) && IsWordChar(alt[|alt| - 1])
    ensures PhraseAt(s, alt, i) <==>
      OccursAt(s, alt, i)
      && (i == 0 || !IsWordChar(s[i - 1]))
      && (i + |alt| == |s| || !IsWordChar(s[i + |alt|]))
  {
    if OccursAt(s, alt, i) {
      assert s[i] == alt[0];
      assert s[i + |alt| - 1] == alt[|alt| - 1];
    }
  }
}
