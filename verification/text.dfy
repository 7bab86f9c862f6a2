/**
  String utilities with the exact meaning the bot relies on: ASCII case
  folding (`str.lower()` on ASCII text), substring tests (`x in s`),
  `str.startswith`, `str.split(sep)` / `sep.join(parts)`, and `str.title()`.
*/
module Text {

  predicate IsUpper(c: char) { 'A' <= c <= 'Z' }
  predicate IsLower(c: char) { 'a' <= c <= 'z' }
  predicate IsLetter(c: char) { IsUpper(c) || IsLower(c) }

  function LowerChar(c: char): (r: char)
    ensures IsUpper(c) ==> IsLower(r)
    ensures !IsUpper(c) ==> r == c
    ensures IsLetter(r) == IsLetter(c)
  {
    if IsUpper(c) then (c as int + 32) as char else c
  }

  function UpperChar(c: char): (r: char)
    ensures IsLower(c) ==> IsUpper(r)
    ensures !IsLower(c) ==> r == c
    ensures IsLetter(r) == IsLetter(c)
  {
    if IsLower(c) then (c as int - 32) as char else c
  }

  /** `str.lower()` on ASCII: the result has no capital letter, agrees
      with `s` up to case at every position, and leaves a string without
      capitals as it is. */
  function Lower(s: string): (r: string)
    ensures |r| == |s|
    ensures NoUpper(r)
    ensures forall i :: 0 <= i < |s| ==> FoldEq(r[i], s[i])
    ensures forall i :: 0 <= i < |s| ==> (IsUpper(s[i]) ==> IsLower(r[i])) && (!IsUpper(s[i]) ==> r[i] == s[i])
    ensures NoUpper(s) ==> r == s
  {
    seq(|s|, i requires 0 <= i < |s| => LowerChar(s[i]))
  }

  /** Lower-casing twice is lower-casing once. */
  lemma LowerIdempotent(s: string)
    ensures Lower(Lower(s)) == Lower(s)
  {
    var t := Lower(s);
    assert NoUpper(t);
  }

  /** Two characters are equal up to ASCII case. */
  predicate FoldEq(a: char, b: char) {
    LowerChar(a) == LowerChar(b)
  }

  /** `s` occurs in `t` starting at index `i`. */
  predicate OccursAt(s: string, t: string, i: nat) {
    i + |s| <= |t| && t[i..i + |s|] == s
  }

  /** Python's `s in t` for strings. */
  predicate Contains(t: string, s: string) {
    exists i: nat | i <= |t| :: OccursAt(s, t, i)
  }

  /** Python's `t.startswith(p)`. */
  predicate StartsWith(t: string, p: string) {
    |p| <= |t| && t[..|p|] == p
  }

  lemma ContainsConcat(a: string, s: string, b: string)
    ensures Contains(a + s + b, s)
  {
    assert OccursAt(s, a + s + b, |a|) by {
      assert (a + s + b)[|a|..|a| + |s|] == s;
    }
  }

  /** A text lacking one of the characters of `s` cannot contain `s`. */
  lemma AbsentChar(t: string, s: string, c: char)
    requires c in s && c !in t
    ensures !Contains(t, s)
  {
    forall i: nat | i <= |t|
      ensures !OccursAt(s, t, i)
    {
      var k :| 0 <= k < |s| && s[k] == c;
      if i + |s| <= |t| {
        assert t[i..i + |s|][k] == t[i + k];
      }
    }
  }

  /** Text added in front keeps every occurrence. */
  lemma ContainsExtend(a: string, t: string, s: string)
    requires Contains(t, s)
    ensures Contains(a + t, s)
  {
    var i: nat :| i <= |t| && OccursAt(s, t, i);
    assert (a + t)[|a| + i..|a| + i + |s|] == t[i..i + |s|];
    assert OccursAt(s, a + t, |a| + i);
  }

  /** `t` has no upper-case ASCII letter (for instance, it is the result
      of `.lower()`). */
  predicate NoUpper(t: string) {
    forall i :: 0 <= i < |t| ==> !IsUpper(t[i])
  }

  lemma NoUpperSlice(t: string, i: nat, j: nat)
    requires NoUpper(t) && i <= j <= |t|
    ensures NoUpper(t[i..j])
  {
    forall k | 0 <= k < j - i
      ensures !IsUpper(t[i..j][k])
    {
      assert t[i..j][k] == t[i + k];
    }
  }

  /** A text without upper-case letters contains no word that starts with
      one. */
  lemma NoUpperExcludes(t: string, w: string)
    requires NoUpper(t) && |w| > 0 && IsUpper(w[0])
    ensures !Contains(t, w)
  {
    forall i: nat | i <= |t|
      ensures !OccursAt(w, t, i)
    {
      if i + |w| <= |t| {
        assert t[i..i + |w|][0] == t[i];
      }
    }
  }

  /** If no character of `a` can start `s`, every occurrence of `s` in
      `a + b` lies inside `b`. */
  lemma {:induction false} ContainsPastPrefix(a: string, b: string, s: string)
    requires |s| > 0
    requires forall i :: 0 <= i < |a| ==> a[i] != s[0]
    requires Contains(a + b, s)
    ensures Contains(b, s)
  {
    var t := a + b;
    var i: nat :| i <= |t| && OccursAt(s, t, i);
    assert t[i] == s[0];
    assert i >= |a|;
    assert b[i - |a|..i - |a| + |s|] == t[i..i + |s|];
    assert OccursAt(s, b, i - |a|);
  }

  lemma StartsWithConcat(p: string, b: string)
    ensures StartsWith(p + b, p)
  {
    assert (p + b)[..|p|] == p;
  }

  // ---------------------------------------------------------------------
  // str.split(sep) and sep.join(parts)
  // ---------------------------------------------------------------------

  /** Python's `s.split(sep)` for a one-character separator: the pieces
      between separators, empty pieces included; never an empty list. */
  function Split(s: string, sep: char): (r: seq<string>)
    ensures |r| >= 1
    decreases |s|
  {
    if |s| == 0 then [""]
    else
      var rest := Split(s[1..], sep);
      if s[0] == sep then [""] + rest
      else [[s[0]] + rest[0]] + rest[1..]
  }

  /** Python's `sep.join(parts)`. */
  function Join(parts: seq<string>, sep: char): string
    decreases |parts|
  {
    if |parts| == 0 then ""
    else if |parts| == 1 then parts[0]
    else parts[0] + [sep] + Join(parts[1..], sep)
  }

  predicate Free(s: string, sep: char) {
    forall i :: 0 <= i < |s| ==> s[i] != sep
  }

  /** A string without the separator splits into itself. */
  lemma {:induction false} SplitFree(s: string, sep: char)
    requires Free(s, sep)
    ensures Split(s, sep) == [s]
    decreases |s|
  {
    if |s| > 0 {
      SplitFree(s[1..], sep);
      assert [s[0]] + s[1..] == s;
    }
  }

  /** Every piece returned by split is separator-free. */
  lemma {:induction false} SplitPiecesFree(s: string, sep: char)
    ensures forall k :: 0 <= k < |Split(s, sep)| ==> Free(Split(s, sep)[k], sep)
    decreases |s|
  {
    if |s| > 0 {
      SplitPiecesFree(s[1..], sep);
    }
  }

  /** Splitting at a separator distributes over concatenation. */
  lemma {:induction false} SplitAround(a: string, sep: char, b: string)
    ensures Split(a + [sep] + b, sep) == Split(a, sep) + Split(b, sep)
    decreases |a|
  {
    var s := a + [sep] + b;
    if |a| == 0 {
      assert s == [sep] + b;
      assert s[1..] == b;
    } else {
      assert s[0] == a[0];
      assert s[1..] == a[1..] + [sep] + b;
      SplitAround(a[1..], sep, b);
    }
  }

  /** `sep.join(s.split(sep)) == s`. */
  lemma {:induction false} JoinSplit(s: string, sep: char)
    ensures Join(Split(s, sep), sep) == s
    decreases |s|
  {
    if |s| > 0 {
      var rest := Split(s[1..], sep);
      JoinSplit(s[1..], sep);
      if s[0] == sep {
        assert Split(s, sep)[1..] == rest;
        assert s == [sep] + s[1..];
      } else {
        var r := Split(s, sep);
        if |rest| == 1 {
          assert r == [[s[0]] + rest[0]];
          assert [s[0]] + s[1..] == s;
        } else {
          assert r[1..] == rest[1..];
          assert Join(rest, sep) == rest[0] + [sep] + Join(rest[1..], sep);
          assert s == [s[0]] + s[1..];
        }
      }
    }
  }
  // ---------------------------------------------------------------------
  // str.title() and str.replace(a, b)
  // ---------------------------------------------------------------------

  /** The scan of `str.title()`: `cased` says whether the character
      before `s` came out as a letter. */
  function TitleFrom(s: string, cased: bool): (r: string)
    ensures |r| == |s|
    ensures forall i :: 0 <= i < |s| ==>
              r[i] == (if (if i == 0 then cased else IsLetter(s[i - 1])) then LowerChar(s[i]) else UpperChar(s[i]))
    ensures forall i :: 0 <= i < |s| ==> IsLetter(r[i]) == IsLetter(s[i])
    ensures forall i :: 0 <= i < |s| ==> FoldEq(r[i], s[i]) && (!IsLetter(s[i]) ==> r[i] == s[i])
    decreases |s|
  {
    if |s| == 0 then ""
    else
      var c := if cased then LowerChar(s[0]) else UpperChar(s[0]);
      [c] + TitleFrom(s[1..], IsLetter(c))
  }

  /** Python's `s.title()` on ASCII text: a letter that starts a word
      becomes upper case, every other letter lower case. */
  function Title(s: string): (r: string)
    ensures |r| == |s|
    ensures forall i :: 0 <= i < |s| ==> IsLetter(r[i]) == IsLetter(s[i])
    ensures forall i :: 0 <= i < |s| && (i == 0 || !IsLetter(s[i - 1])) ==> !IsLower(r[i])
    ensures forall i :: 0 < i < |s| && IsLetter(s[i - 1]) ==> !IsUpper(r[i])
    ensures forall i :: 0 <= i < |s| ==> FoldEq(r[i], s[i]) && (!IsLetter(s[i]) ==> r[i] == s[i])
  {
    TitleFrom(s, false)
  }

  /** Title-casing twice changes nothing more. */
  lemma TitleIdempotent(s: string)
    ensures Title(Title(s)) == Title(s)
  {
    var t := Title(s);
    forall i | 0 <= i < |s|
      ensures Title(t)[i] == t[i]
    {
      if i == 0 || !IsLetter(s[i - 1]) {
        assert i > 0 ==> !IsLetter(t[i - 1]);
      } else {
        assert IsLetter(t[i - 1]);
      }
    }
  }

  /** `str.replace` of one character by another: every `a` becomes `b`,
      every other character stays where it was, and a string without `a`
      comes back unchanged. */
  function Replace(s: string, a: char, b: char): (r: string)
    ensures |r| == |s|
    ensures forall i :: 0 <= i < |s| && s[i] == a ==> r[i] == b
    ensures forall i :: 0 <= i < |s| && s[i] != a ==> r[i] == s[i]
    ensures a != b ==> a !in r
    ensures a !in s ==> r == s
  {
    seq(|s|, i requires 0 <= i < |s| => if s[i] == a then b else s[i])
  }

  /** Replacing back undoes a replacement by a character `s` did not hold. */
  lemma ReplaceBack(s: string, a: char, b: char)
    requires b !in s
    ensures Replace(Replace(s, a, b), b, a) == s
  {
    var t := Replace(s, a, b);
    forall i | 0 <= i < |s| ensures Replace(t, b, a)[i] == s[i] {
      if s[i] == a { assert t[i] == b; } else { assert t[i] == s[i] && s[i] != b; }
    }
  }
}
