/** The JavaScript string operations the server relies on: `trim`,
    `toLowerCase` (ASCII letters only), `includes` and `startsWith`. */
module Text {

  /** The code points `String.prototype.trim` removes: ECMAScript's
      WhiteSpace (tab, vertical tab, form feed, no-break space, byte order
      mark and every space separator) and LineTerminator (LF, CR, U+2028,
      U+2029). */
  const Whitespace: set<char> := {
    '\U{9}', '\U{A}', '\U{B}', '\U{C}', '\U{D}', '\U{20}', '\U{A0}', '\U{1680}',
    '\U{2000}', '\U{2001}', '\U{2002}', '\U{2003}', '\U{2004}', '\U{2005}', '\U{2006}', '\U{2007}',
    '\U{2008}', '\U{2009}', '\U{200A}', '\U{2028}', '\U{2029}', '\U{202F}', '\U{205F}', '\U{3000}',
    '\U{FEFF}'}

  predicate IsWhitespace(c: char) {
    c in Whitespace
  }

  predicate AllWhitespace(s: string) {
    forall c :: c in s ==> IsWhitespace(c)
  }

  /** Neither end of `s` is whitespace: what `trim` leaves. */
  predicate Trimmed(s: string) {
    s == [] || (!IsWhitespace(s[0]) && !IsWhitespace(s[|s| - 1]))
  }

  /** `s.trim()`: leading whitespace is dropped one character at a time,
      then trailing whitespace. What it drops, and when it leaves nothing,
      is stated by `TrimBlank` and `TrimKeepsMiddle`. */
  function Trim(s: string): (r: string)
    ensures |r| <= |s|
    ensures Trimmed(r)
    decreases |s|
  {
    if s != [] && IsWhitespace(s[0]) then Trim(s[1..])
    else if s != [] && IsWhitespace(s[|s| - 1]) then Trim(s[..|s| - 1])
    else s
  }

  /** Trimming leaves nothing exactly when everything is whitespace. */
  lemma {:induction false} TrimBlank(s: string)
    ensures Trim(s) == [] <==> AllWhitespace(s)
    decreases |s|
  {
    if s != [] && IsWhitespace(s[0]) {
      TrimBlank(s[1..]);
      assert s == [s[0]] + s[1..];
    } else if s != [] && IsWhitespace(s[|s| - 1]) {
      var init := s[..|s| - 1];
      assert init[0] == s[0];
      TrimBlank(init);
      assert s[0] in s;
    } else if s != [] {
      assert s[0] in s;
    }
  }

  /** `r` is `s` with `i` whitespace characters dropped in front and only
      whitespace dropped behind. */
  predicate Middle(s: string, r: string, i: int) {
    && 0 <= i <= |s| - |r| && r == s[i..i + |r|]
    && AllWhitespace(s[..i]) && AllWhitespace(s[i + |r|..])
  }

  /** `trim` keeps a contiguous middle of `s` and removes only whitespace,
      and only at the two ends. */
  lemma {:induction false} TrimKeepsMiddle(s: string)
    ensures exists i :: Middle(s, Trim(s), i)
    decreases |s|
  {
    if s != [] && IsWhitespace(s[0]) {
      TrimKeepsMiddle(s[1..]);
      var j :| Middle(s[1..], Trim(s), j);
      MiddleAfterHead(s, Trim(s), j);
    } else if s != [] && IsWhitespace(s[|s| - 1]) {
      TrimKeepsMiddle(s[..|s| - 1]);
      var j :| Middle(s[..|s| - 1], Trim(s), j);
      MiddleBeforeLast(s, Trim(s), j);
    } else {
      assert s[0..|s|] == s && s[..0] == [] && s[|s|..] == [];
      assert Middle(s, Trim(s), 0);
    }
  }

  /** Dropping one more whitespace character in front. */
  lemma {:induction false} MiddleAfterHead(s: string, r: string, j: int)
    requires s != [] && IsWhitespace(s[0]) && Middle(s[1..], r, j)
    ensures Middle(s, r, j + 1)
  {
    assert s[..j + 1] == [s[0]] + s[1..][..j];
    assert s[j + 1..j + 1 + |r|] == s[1..][j..j + |r|];
    assert s[j + 1 + |r|..] == s[1..][j + |r|..];
  }

  /** Dropping one more whitespace character behind. */
  lemma {:induction false} MiddleBeforeLast(s: string, r: string, j: int)
    requires s != [] && IsWhitespace(s[|s| - 1]) && Middle(s[..|s| - 1], r, j)
    ensures Middle(s, r, j)
  {
    var init := s[..|s| - 1];
    assert s[..j] == init[..j] && s[j..j + |r|] == init[j..j + |r|];
    assert s[j + |r|..] == init[j + |r|..] + [s[|s| - 1]];
  }

  /** `s.length`: JavaScript counts UTF-16 code units, so a character
      outside the Basic Multilingual Plane counts twice. */
  function Utf16Length(s: string): (n: nat)
    ensures |s| <= n <= 2 * |s|
    decreases |s|
  {
    if s == [] then 0 else (if s[0] as int >= 0x1_0000 then 2 else 1) + Utf16Length(s[1..])
  }

  /** On text of the Basic Multilingual Plane the two lengths agree. */
  lemma {:induction false} Utf16LengthOfBmp(s: string)
    requires forall i :: 0 <= i < |s| ==> s[i] as int < 0x1_0000
    ensures Utf16Length(s) == |s|
    decreases |s|
  {
    if s != [] {
      Utf16LengthOfBmp(s[1..]);
    }
  }

  /** Each character outside the Basic Multilingual Plane adds one unit. */
  lemma {:induction false} Utf16LengthOfAstral(s: string)
    requires forall i :: 0 <= i < |s| ==> s[i] as int >= 0x1_0000
    ensures Utf16Length(s) == 2 * |s|
    decreases |s|
  {
    if s != [] {
      Utf16LengthOfAstral(s[1..]);
    }
  }

  /** `s.trim().length === 0`, the handlers' test for a blank field. */
  predicate IsBlank(s: string) {
    |Trim(s)| == 0
  }

  /** A trimmed string is its own trim. */
  lemma TrimOfTrimmed(s: string)
    requires Trimmed(s)
    ensures Trim(s) == s
  {
  }

  /** Trimming twice is trimming once. */
  lemma TrimIdempotent(s: string)
    ensures Trim(Trim(s)) == Trim(s)
  {
    TrimOfTrimmed(Trim(s));
  }

  predicate IsUpper(c: char) {
    'A' <= c <= 'Z'
  }

  /** No upper-case ASCII letter in `s`. */
  predicate IsLowerCase(s: string) {
    forall i :: 0 <= i < |s| ==> !IsUpper(s[i])
  }

  /** `toLowerCase` on one character, restricted to ASCII letters. */
  function LowerChar(c: char): (d: char)
    ensures !IsUpper(d)
    ensures IsUpper(c) ==> d as int == c as int + 32
    ensures !IsUpper(c) ==> d == c
  {
    if IsUpper(c) then (c as int + 32) as char else c
  }

  /** `s.toLowerCase()` on ASCII: every character is lowered in place. */
  function ToLower(s: string): (r: string)
    ensures |r| == |s|
    ensures forall i :: 0 <= i < |s| ==> r[i] == LowerChar(s[i])
    decreases |s|
  {
    if s == [] then [] else [LowerChar(s[0])] + ToLower(s[1..])
  }

  /** Lower-casing neither adds nor removes whitespace at the ends. */
  lemma {:induction false} ToLowerKeepsTrimmed(t: string)
    requires Trimmed(t)
    ensures Trimmed(ToLower(t))
  {
    if t != [] {
      var l := ToLower(t);
      assert l[0] == LowerChar(t[0]) && l[|l| - 1] == LowerChar(t[|t| - 1]);
      LowerCharNotWhitespace(t[0]);
      LowerCharNotWhitespace(t[|t| - 1]);
    }
  }

  /** Lowering a character that is not whitespace gives one that is not
      whitespace either. */
  lemma LowerCharNotWhitespace(c: char)
    requires !IsWhitespace(c)
    ensures !IsWhitespace(LowerChar(c))
  {
    if IsUpper(c) {
      LetterNotWhitespace(LowerChar(c));
    }
  }

  /** Every whitespace code point lies outside the ASCII letters. */
  lemma LetterNotWhitespace(c: char)
    requires 'a' <= c <= 'z'
    ensures !IsWhitespace(c)
  {
  }

  predicate OccursAt(w: string, s: string, i: int) {
    0 <= i && i + |w| <= |s| && s[i..i + |w|] == w
  }

  /** `s.includes(w)`. */
  function Contains(s: string, w: string): bool
    decreases |s|
  {
    if |w| > |s| then false
    else if s[..|w|] == w then true
    else Contains(s[1..], w)
  }

  /** `Contains` is exactly "w occurs at some position of s". */
  lemma {:induction false} ContainsIff(s: string, w: string)
    ensures Contains(s, w) <==> exists i :: OccursAt(w, s, i)
    decreases |s|
  {
    if |w| > |s| {
    } else if s[..|w|] == w {
      assert OccursAt(w, s, 0);
    } else {
      ContainsIff(s[1..], w);
      if Contains(s[1..], w) {
        var j :| OccursAt(w, s[1..], j);
        assert s[1..][j..j + |w|] == s[j + 1..j + 1 + |w|];
        assert OccursAt(w, s, j + 1);
      }
      if i :| OccursAt(w, s, i) {
        assert i != 0;
        assert s[1..][i - 1..i - 1 + |w|] == s[i..i + |w|];
        assert OccursAt(w, s[1..], i - 1);
      }
    }
  }

  /** A witness position proves `Contains`. */
  lemma ContainsAt(s: string, w: string, i: int)
    requires OccursAt(w, s, i)
    ensures Contains(s, w)
  {
    ContainsIff(s, w);
  }

  /** `s.startsWith(p)`. */
  predicate StartsWith(s: string, p: string) {
    |p| <= |s| && s[..|p|] == p
  }
}
