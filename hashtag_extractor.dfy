/** `extractHashtags`: every `#word` of a text, without its `#`, lower-cased,
    each tag once, in order of first occurrence. */
module HashtagExtractor {
  import opened Common
  import opened Text
  import opened Lists

  /** The regular expression class `\w`: ASCII letters, digits and `_`. */
  predicate IsWordChar(c: char) {
    ('a' <= c <= 'z') || ('A' <= c <= 'Z') || ('0' <= c <= '9') || c == '_'
  }

  /** The longest prefix of `s` made of word characters (what `\w+` takes). */
  function WordRun(s: string): (w: string)
    ensures |w| <= |s| && w == s[..|w|]
    ensures forall i :: 0 <= i < |w| ==> IsWordChar(w[i])
    ensures |w| < |s| ==> !IsWordChar(s[|w|])
    decreases |s|
  {
    if s != [] && IsWordChar(s[0]) then
      var rest := WordRun(s[1..]);
      assert s == [s[0]] + s[1..];
      [s[0]] + rest
    else []
  }

  /** Position `i` of `s` starts an occurrence of `#(\w+)`. */
  predicate TagAt(s: string, i: int) {
    0 <= i && i + 1 < |s| && s[i] == '#' && IsWordChar(s[i + 1])
  }

  /** The word after the `#` at position `i`. */
  function TagWordAt(s: string, i: int): string
    requires TagAt(s, i)
  {
    WordRun(s[i + 1..])
  }

  /** `text.match(/#(\w+)/g)` with the leading `#` of every match dropped:
      the scan tries a match at each position and, after a match, resumes
      right behind it. */
  function Matches(s: string): (ms: seq<string>)
    ensures forall k :: 0 <= k < |ms| ==> |ms[k]| > 0 && forall j :: 0 <= j < |ms[k]| ==> IsWordChar(ms[k][j])
    decreases |s|
  {
    if |s| < 2 then []
    else if s[0] == '#' && IsWordChar(s[1]) then
      var w := WordRun(s[1..]);
      [w] + Matches(s[1 + |w|..])
    else Matches(s[1..])
  }

  /** Every `#word` of the text is matched, whole. */
  lemma {:induction false} MatchesComplete(s: string, i: int)
    requires TagAt(s, i)
    ensures TagWordAt(s, i) in Matches(s)
    decreases |s|
  {
    if s[0] == '#' && IsWordChar(s[1]) {
      if i != 0 {
        var n := 1 + |WordRun(s[1..])|;
        NextTagAfterWord(s, i);
        TagUnshift(s, n, i);
        MatchesComplete(s[n..], i - n);
      }
    } else {
      TagUnshift(s, 1, i);
      MatchesComplete(s[1..], i - 1);
    }
  }

  /** A `#` cannot sit inside the word that follows the `#` at position 0. */
  lemma NextTagAfterWord(s: string, i: int)
    requires TagAt(s, 0) && TagAt(s, i) && i != 0
    ensures i >= 1 + |WordRun(s[1..])|
  {
    var w := WordRun(s[1..]);
    forall k | 1 <= k < 1 + |w| ensures IsWordChar(s[k]) {
      assert s[k] == w[k - 1];
    }
  }

  /** A `#word` at or after position `n` is one of the text with its first
      `n` characters dropped, `n` positions earlier. */
  lemma TagUnshift(s: string, n: nat, i: int)
    requires n <= i && TagAt(s, i)
    ensures TagAt(s[n..], i - n) && TagWordAt(s[n..], i - n) == TagWordAt(s, i)
  {
    assert s[n..][i - n + 1..] == s[i + 1..];
  }

  /** Every match is the word after some `#` of the text. */
  lemma {:induction false} MatchesSound(s: string)
    ensures forall m :: m in Matches(s) ==> exists i :: TagAt(s, i) && m == TagWordAt(s, i)
    decreases |s|
  {
    if |s| >= 2 {
      var n := if s[0] == '#' && IsWordChar(s[1]) then 1 + |WordRun(s[1..])| else 1;
      var t := s[n..];
      MatchesSound(t);
      forall m | m in Matches(s)
        ensures exists i :: TagAt(s, i) && m == TagWordAt(s, i)
      {
        if m in Matches(t) {
          var j :| TagAt(t, j) && m == TagWordAt(t, j);
          TagShift(s, n, j);
        } else {
          assert TagAt(s, 0) && m == TagWordAt(s, 0);
        }
      }
    }
  }

  /** A `#word` found after the first `n` characters is one of the whole
      text, `n` positions further on. */
  lemma {:induction false} TagShift(s: string, n: nat, j: int)
    requires n <= |s| && TagAt(s[n..], j)
    ensures TagAt(s, j + n) && TagWordAt(s[n..], j) == TagWordAt(s, j + n)
  {
    assert s[n..][j + 1..] == s[j + n + 1..];
  }

  function LowerAll(ms: seq<string>): (r: seq<string>)
    ensures |r| == |ms|
    ensures forall k :: 0 <= k < |ms| ==> r[k] == ToLower(ms[k])
  {
    seq(|ms|, k requires 0 <= k < |ms| => ToLower(ms[k]))
  }

  /** The characters a tag is made of: lower-case word characters. */
  predicate IsTag(t: string) {
    |t| > 0 && forall j :: 0 <= j < |t| ==> IsWordChar(t[j]) && !IsUpper(t[j])
  }

  /** `extractHashtags(text)`; `None` is an absent text. */
  function ExtractHashtags(text: Option<string>): (tags: seq<string>)
    ensures forall k :: 0 <= k < |tags| ==> IsTag(tags[k])
    ensures NoDuplicates(tags)
  {
    if text.None? || text.value == [] then []
    else
      var ms := Matches(text.value);
      var lowered := LowerAll(ms);
      assert forall k :: 0 <= k < |lowered| ==> IsTag(lowered[k]);
      var tags := Dedup(lowered);
      assert forall k :: 0 <= k < |tags| ==> tags[k] in lowered;
      tags
  }

  /** The tags of a text are exactly the lower-cased words that follow its
      `#` signs. */
  lemma ExtractHashtagsExact(s: string)
    ensures forall i :: TagAt(s, i) ==> ToLower(TagWordAt(s, i)) in ExtractHashtags(Some(s))
    ensures forall t :: t in ExtractHashtags(Some(s)) ==>
      exists i :: TagAt(s, i) && t == ToLower(TagWordAt(s, i))
  {
    var ms := Matches(s);
    forall i | TagAt(s, i)
      ensures ToLower(TagWordAt(s, i)) in ExtractHashtags(Some(s))
    {
      MatchesComplete(s, i);
      var k :| 0 <= k < |ms| && ms[k] == TagWordAt(s, i);
      assert LowerAll(ms)[k] == ToLower(TagWordAt(s, i));
    }
    MatchesSound(s);
    forall t | t in ExtractHashtags(Some(s))
      ensures exists i :: TagAt(s, i) && t == ToLower(TagWordAt(s, i))
    {
      var k :| 0 <= k < |LowerAll(ms)| && LowerAll(ms)[k] == t;
      assert ms[k] in ms;
    }
  }

  /** A text without any `#word` has no match. */
  lemma {:induction false} NoTagNoMatches(s: string)
    requires forall i :: !TagAt(s, i)
    ensures Matches(s) == []
    decreases |s|
  {
    if |s| >= 2 {
      assert !TagAt(s, 0);
      forall i ensures !TagAt(s[1..], i) {
        assert TagAt(s[1..], i) ==> TagAt(s, i + 1);
      }
      NoTagNoMatches(s[1..]);
    }
  }

  /** A text has no tags exactly when no `#` in it is followed by a word
      character. */
  lemma NoHashtagsIffNoTag(s: string)
    ensures ExtractHashtags(Some(s)) == [] <==> forall i :: !TagAt(s, i)
  {
    if exists i :: TagAt(s, i) {
      var i :| TagAt(s, i);
      ExtractHashtagsExact(s);
      assert ToLower(TagWordAt(s, i)) in ExtractHashtags(Some(s));
    } else {
      NoTagNoMatches(s);
    }
  }

  /** The tags come in the order in which they first occur in the text. */
  lemma ExtractHashtagsFirstOccurrenceOrder(s: string)
    ensures forall i, j :: 0 <= i < j < |ExtractHashtags(Some(s))| ==>
      IndexOf(LowerAll(Matches(s)), ExtractHashtags(Some(s))[i])
        < IndexOf(LowerAll(Matches(s)), ExtractHashtags(Some(s))[j])
  {
    DedupKeepsFirstOccurrenceOrder(LowerAll(Matches(s)));
  }
}
