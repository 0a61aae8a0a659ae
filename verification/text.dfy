/**
 String helpers the orchestrators use on names, notes and query strings,
 written after Python's `str.split(sep)`, `str.replace(target, rep)`,
 `str.title()` and `str.lower()`.

 Case conversion is restricted to ASCII: letters `A`-`Z` and `a`-`z` are the
 only cased characters, every other character is left as it is.
 */
module Text {

  /* ---------------------------------------------------------------------
     Occurrences of a pattern
     --------------------------------------------------------------------- */

  /** `pat` occurs in `s` starting at index `i`. */
  predicate OccursAt(s: string, pat: string, i: nat)
  {
    i + |pat| <= |s| && s[i..i + |pat|] == pat
  }

  /** `pat` occurs somewhere in `s`. */
  predicate Contains(s: string, pat: string)
  {
    exists i: nat | i <= |s| :: OccursAt(s, pat, i)
  }

  /* ---------------------------------------------------------------------
     split / join / replace
     --------------------------------------------------------------------- */

  /** Python's `s.split(sep)` for a non-empty separator: the pieces between
      the leftmost non-overlapping occurrences of `sep`. */
  function SplitOn(s: string, sep: string): (pieces: seq<string>)
    requires |sep| > 0
    ensures |pieces| > 0
    ensures pieces[0] <= s
    decreases |s|
  {
    if |s| < |sep| then [s]
    else if s[..|sep|] == sep then [""] + SplitOn(s[|sep|..], sep)
    else
      var rest := SplitOn(s[1..], sep);
      [[s[0]] + rest[0]] + rest[1..]
  }

  /** Python's `sep.join(pieces)`. */
  function Join(sep: string, pieces: seq<string>): string
  {
    if |pieces| == 0 then ""
    else if |pieces| == 1 then pieces[0]
    else pieces[0] + sep + Join(sep, pieces[1..])
  }

  /** Python's `s.replace(target, rep)`: a left-to-right scan that replaces each
      occurrence of `target` and resumes after it. */
  function Replace(s: string, target: string, rep: string): (r: string)
    requires |target| > 0
    ensures !Contains(s, target) ==> r == s
    decreases |s|
  {
    if |s| < |target| then s
    else if s[..|target|] == target then
      assert OccursAt(s, target, 0);
      rep + Replace(s[|target|..], target, rep)
    else
      ContainsTail(s, target);
      [s[0]] + Replace(s[1..], target, rep)
  }

  lemma JoinConsChar(sep: string, c: char, p: string, tail: seq<string>)
    ensures Join(sep, [[c] + p] + tail) == [c] + Join(sep, [p] + tail)
  {
    if |tail| > 0 {
      assert ([[c] + p] + tail)[1..] == tail;
      assert ([p] + tail)[1..] == tail;
    }
  }

  /** Replacing is cutting at every occurrence and gluing the replacement in:
      `s.replace(target, rep) == rep.join(s.split(target))`. */
  lemma {:induction false} ReplaceIsJoinOfSplit(s: string, target: string, rep: string)
    requires |target| > 0
    ensures Replace(s, target, rep) == Join(rep, SplitOn(s, target))
    decreases |s|
  {
    if |s| < |target| {
      assert SplitOn(s, target) == [s];
    } else if s[..|target|] == target {
      ReplaceIsJoinOfSplit(s[|target|..], target, rep);
      var rest := SplitOn(s[|target|..], target);
      assert Replace(s, target, rep) == rep + Replace(s[|target|..], target, rep);
      assert SplitOn(s, target) == [""] + rest;
      assert ([""] + rest)[1..] == rest;
    } else {
      ReplaceIsJoinOfSplit(s[1..], target, rep);
      var rest := SplitOn(s[1..], target);
      assert Replace(s, target, rep) == [s[0]] + Replace(s[1..], target, rep);
      assert SplitOn(s, target) == [[s[0]] + rest[0]] + rest[1..];
      JoinConsChar(rep, s[0], rest[0], rest[1..]);
      assert [rest[0]] + rest[1..] == rest;
    }
  }


  /** Replacing a pattern by itself changes nothing. */
  lemma {:induction false} ReplaceBySelf(s: string, pat: string)
    requires |pat| > 0
    ensures Replace(s, pat, pat) == s
    decreases |s|
  {
    if |s| < |pat| {
    } else if s[..|pat|] == pat {
      ReplaceBySelf(s[|pat|..], pat);
      assert s == s[..|pat|] + s[|pat|..];
    } else {
      ReplaceBySelf(s[1..], pat);
      assert s == [s[0]] + s[1..];
    }
  }

  /** Splitting on a one-character separator that `s` does not contain
      gives `s` whole. */
  lemma {:induction false} SplitWithoutSeparator(s: string, c: char)
    requires c !in s
    ensures SplitOn(s, [c]) == [s]
    decreases |s|
  {
    if |s| > 0 {
      assert s[0] in s;
      assert s[..1] != [c];
      SplitWithoutSeparator(s[1..], c);
      assert [s[0]] + s[1..] == s;
    }
  }

  /** Splitting cuts at the first separator: a piece free of the separator,
      then the split of what follows it. */
  lemma {:induction false} SplitAtFirstSeparator(a: string, c: char, b: string)
    requires c !in a
    ensures SplitOn(a + [c] + b, [c]) == [a] + SplitOn(b, [c])
    decreases |a|
  {
    var s := a + [c] + b;
    if |a| == 0 {
      assert s == [c] + b;
      assert s[..1] == [c] && s[1..] == b;
    } else {
      assert a[0] in a && s[0] == a[0];
      assert s[..1] != [c];
      assert s[1..] == a[1..] + [c] + b;
      SplitAtFirstSeparator(a[1..], c, b);
      assert [a[0]] + a[1..] == a;
    }
  }

  /** Splitting and joining back with the same separator is the identity. */
  lemma SplitJoinRoundTrip(s: string, sep: string)
    requires |sep| > 0
    ensures Join(sep, SplitOn(s, sep)) == s
  {
    ReplaceIsJoinOfSplit(s, sep, sep);
    ReplaceBySelf(s, sep);
  }

  /** An occurrence in the tail is an occurrence in the string. */
  lemma ContainsTail(s: string, pat: string)
    requires |s| > 0
    ensures Contains(s[1..], pat) ==> Contains(s, pat)
  {
    if Contains(s[1..], pat) {
      var i: nat :| i <= |s[1..]| && OccursAt(s[1..], pat, i);
      assert s[i + 1..i + 1 + |pat|] == s[1..][i..i + |pat|];
      assert OccursAt(s, pat, i + 1);
    }
  }

  /** No piece of a split still contains the separator: every occurrence
      was cut. */
  lemma {:induction false} SplitPiecesFree(s: string, sep: string)
    requires |sep| > 0
    ensures forall i :: 0 <= i < |SplitOn(s, sep)| ==> !Contains(SplitOn(s, sep)[i], sep)
    decreases |s|
  {
    var pieces := SplitOn(s, sep);
    if |s| < |sep| {
      assert pieces == [s];
      forall k: nat ensures !OccursAt(s, sep, k) {
      }
    } else if s[..|sep|] == sep {
      SplitPiecesFree(s[|sep|..], sep);
      var rest := SplitOn(s[|sep|..], sep);
      assert pieces == [""] + rest;
      forall k: nat ensures !OccursAt("", sep, k) {
      }
      forall i | 0 <= i < |pieces| ensures !Contains(pieces[i], sep) {
        if i > 0 {
          assert pieces[i] == rest[i - 1];
        }
      }
    } else {
      SplitPiecesFree(s[1..], sep);
      var rest := SplitOn(s[1..], sep);
      var head := [s[0]] + rest[0];
      assert pieces == [head] + rest[1..];
      assert head <= s;
      assert !Contains(rest[0], sep);
      forall k: nat | k <= |head| ensures !OccursAt(head, sep, k) {
        if k + |sep| <= |head| {
          if k == 0 {
            assert head[..|sep|] == s[..|sep|];
          } else {
            assert head[k..k + |sep|] == rest[0][k - 1..k - 1 + |sep|];
            assert !OccursAt(rest[0], sep, k - 1);
          }
        }
      }
      forall i | 0 <= i < |pieces| ensures !Contains(pieces[i], sep) {
        if i > 0 {
          assert pieces[i] == rest[i];
        }
      }
    }
  }

  /* ---------------------------------------------------------------------
     First space-separated token
     --------------------------------------------------------------------- */

  /** The longest prefix of `s` without a space. */
  function FirstWord(s: string): (w: string)
    ensures w <= s
    ensures ' ' !in w
    ensures |w| < |s| ==> s[|w|] == ' '
  {
    if |s| == 0 || s[0] == ' ' then "" else [s[0]] + FirstWord(s[1..])
  }

  /** `s.split(' ')[0]` is the first word. */
  lemma {:induction false} SplitFirstPieceIsFirstWord(s: string)
    ensures SplitOn(s, " ")[0] == FirstWord(s)
    decreases |s|
  {
    if |s| == 0 {
    } else if s[..1] == " " {
      assert s[0] == ' ';
    } else {
      assert s[0] != ' ';
      SplitFirstPieceIsFirstWord(s[1..]);
    }
  }

  /* ---------------------------------------------------------------------
     ASCII case
     --------------------------------------------------------------------- */

  predicate IsUpper(c: char) { 'A' <= c <= 'Z' }
  predicate IsLower(c: char) { 'a' <= c <= 'z' }
  predicate IsCased(c: char) { IsUpper(c) || IsLower(c) }

  function ToUpper(c: char): (u: char)
    ensures IsCased(u) == IsCased(c)
    ensures !IsLower(u)
  {
    if IsLower(c) then (c as int - 32) as char else c
  }

  function ToLower(c: char): (l: char)
    ensures IsCased(l) == IsCased(c)
    ensures !IsUpper(l)
  {
    if IsUpper(c) then (c as int + 32) as char else c
  }

  lemma CaseConversionKeepsLetter(c: char)
    ensures ToLower(ToUpper(c)) == ToLower(c) && ToLower(ToLower(c)) == ToLower(c)
    ensures ToUpper(c) == ' ' <==> c == ' '
    ensures ToLower(c) == ' ' <==> c == ' '
  {
  }

  /** Python's `s.lower()` on ASCII text. */
  function Lower(s: string): (r: string)
    ensures |r| == |s|
    ensures forall i :: 0 <= i < |s| ==> r[i] == ToLower(s[i])
  {
    if |s| == 0 then "" else [ToLower(s[0])] + Lower(s[1..])
  }

  /** Title-casing the rest of a string when the character before it was
      (or was not) cased. */
  function TitleFrom(s: string, prevCased: bool): (r: string)
    ensures |r| == |s|
  {
    if |s| == 0 then ""
    else
      [if prevCased then ToLower(s[0]) else ToUpper(s[0])]
      + TitleFrom(s[1..], IsCased(s[0]))
  }

  /** Python's `s.title()`: a cased character is upper-cased when it starts a
      run of cased characters and lower-cased otherwise. */
  function TitleCase(s: string): (r: string)
    ensures |r| == |s|
    ensures forall i :: 0 <= i < |s| ==>
      r[i] == (if i > 0 && IsCased(s[i - 1]) then ToLower(s[i]) else ToUpper(s[i]))
  {
    TitleFromPointwise(s, false);
    TitleFrom(s, false)
  }

  /** Whether the character before index `i` is cased. */
  predicate CasedBefore(s: string, i: nat, prevCased: bool)
    requires i <= |s|
  {
    if i == 0 then prevCased else IsCased(s[i - 1])
  }

  lemma {:induction false} TitleFromPointwise(s: string, prevCased: bool)
    ensures forall i :: 0 <= i < |s| ==>
      TitleFrom(s, prevCased)[i]
      == (if CasedBefore(s, i, prevCased) then ToLower(s[i]) else ToUpper(s[i]))
    decreases |s|
  {
    if |s| > 0 {
      TitleFromPointwise(s[1..], IsCased(s[0]));
      var r := TitleFrom(s, prevCased);
      forall i | 0 <= i < |s|
        ensures r[i] == (if CasedBefore(s, i, prevCased) then ToLower(s[i]) else ToUpper(s[i]))
      {
        if i > 0 {
          assert r[i] == TitleFrom(s[1..], IsCased(s[0]))[i - 1];
          assert CasedBefore(s[1..], i - 1, IsCased(s[0])) == CasedBefore(s, i, prevCased);
        }
      }
    }
  }

  lemma {:induction false} TitleFromIdempotent(s: string, prevCased: bool)
    ensures TitleFrom(TitleFrom(s, prevCased), prevCased) == TitleFrom(s, prevCased)
    decreases |s|
  {
    if |s| > 0 {
      var t := TitleFrom(s, prevCased);
      assert t[0] == (if prevCased then ToLower(s[0]) else ToUpper(s[0]));
      assert t[1..] == TitleFrom(s[1..], IsCased(s[0]));
      assert IsCased(t[0]) == IsCased(s[0]);
      TitleFromIdempotent(s[1..], IsCased(s[0]));
    }
  }

  /** Title-casing twice is title-casing once. */
  lemma TitleCaseIdempotent(s: string)
    ensures TitleCase(TitleCase(s)) == TitleCase(s)
  {
    TitleFromIdempotent(s, false);
  }

  /** Title-casing changes case only: the text is the same ignoring case,
      and spaces stay where they were. */
  lemma TitleCaseKeepsText(s: string)
    ensures Lower(TitleCase(s)) == Lower(s)
    ensures ' ' in TitleCase(s) <==> ' ' in s
  {
    var t := TitleCase(s);
    forall i | 0 <= i < |s| ensures Lower(t)[i] == Lower(s)[i] && (t[i] == ' ' <==> s[i] == ' ') {
      CaseConversionKeepsLetter(s[i]);
      assert t[i] == (if i > 0 && IsCased(s[i - 1]) then ToLower(s[i]) else ToUpper(s[i]));
    }
    assert Lower(t) == Lower(s);
    if ' ' in s {
      var i :| 0 <= i < |s| && s[i] == ' ';
      assert t[i] == ' ';
    }
    if ' ' in t {
      var i :| 0 <= i < |t| && t[i] == ' ';
      assert s[i] == ' ';
    }
  }
}
