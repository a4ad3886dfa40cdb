/**
 * The few Python string operations the report generator relies on, restricted
 * to ASCII: `str.lower()`, `str.capitalize()`, `str.split()` with no argument,
 * and `str.replace('.jpg', '')`.
 */
module Text {

  predicate IsUpper(c: char) { 'A' <= c <= 'Z' }

  predicate IsLower(c: char) { 'a' <= c <= 'z' }

  function LowerChar(c: char): char { if IsUpper(c) then (c as int + 32) as char else c }

  function UpperChar(c: char): char { if IsLower(c) then (c as int - 32) as char else c }

  /** The ASCII characters for which Python's `str.isspace()` holds. */
  predicate IsSpace(c: char) { c == ' ' || 9 <= c as int <= 13 || 28 <= c as int <= 31 }

  /** `s.lower()`. */
  function Lower(s: string): (r: string)
    ensures |r| == |s|
    ensures forall i :: 0 <= i < |s| ==> r[i] == LowerChar(s[i])
  {
    seq(|s|, i requires 0 <= i < |s| => LowerChar(s[i]))
  }

  /** `[n.lower() for n in names]`. */
  function LowerAll(names: seq<string>): (r: seq<string>)
    ensures |r| == |names|
    ensures forall i :: 0 <= i < |names| ==> r[i] == Lower(names[i])
  {
    seq(|names|, i requires 0 <= i < |names| => Lower(names[i]))
  }

  predicate HasNoUpper(s: string) { forall i :: 0 <= i < |s| ==> !IsUpper(s[i]) }

  lemma LowerHasNoUpper(s: string)
    ensures HasNoUpper(Lower(s))
  {
  }

  /** Lower-casing twice is lower-casing once. */
  lemma LowerIdempotent(s: string)
    ensures Lower(Lower(s)) == Lower(s)
  {
    LowerHasNoUpper(s);
    LowerFixesLowerCase(Lower(s));
  }

  /** A string without upper-case letters is its own lower-case form. */
  lemma LowerFixesLowerCase(s: string)
    requires HasNoUpper(s)
    ensures Lower(s) == s
  {
  }

  /** Two strings have the same lower-case form exactly when they agree letter by letter up to case. */
  lemma LowerEqual(a: string, b: string)
    ensures Lower(a) == Lower(b) <==> |a| == |b| && forall i :: 0 <= i < |a| ==> LowerChar(a[i]) == LowerChar(b[i])
  {
    if |a| == |b| && forall i :: 0 <= i < |a| ==> LowerChar(a[i]) == LowerChar(b[i]) {
      assert forall i :: 0 <= i < |a| ==> Lower(a)[i] == Lower(b)[i];
    }
  }

  /** A string whose lower-case letters are all lower case is unchanged by `LowerAll`. */
  lemma LowerAllFixesLowerCase(names: seq<string>)
    requires forall i :: 0 <= i < |names| ==> HasNoUpper(names[i])
    ensures LowerAll(names) == names
  {
    forall i | 0 <= i < |names| ensures LowerAll(names)[i] == names[i] {
      LowerFixesLowerCase(names[i]);
    }
  }

  /** `s.capitalize()`: the first character upper-cased, the rest lower-cased. */
  function Capitalize(s: string): (r: string)
    ensures |r| == |s|
    ensures s != [] ==> r[0] == UpperChar(s[0]) && r[1..] == Lower(s[1..])
  {
    if s == [] then [] else [UpperChar(s[0])] + Lower(s[1..])
  }

  predicate IsLowerWord(w: string) { w != [] && forall i :: 0 <= i < |w| ==> IsLower(w[i]) }

  /** A capitalized word is the capitalized form of its own lower-case spelling. */
  lemma CapitalizeUndoesLower(w: string)
    requires w != [] && IsUpper(w[0]) && forall j :: 1 <= j < |w| ==> IsLower(w[j])
    ensures IsLowerWord(Lower(w)) && Capitalize(Lower(w)) == w
  {
    var l := Lower(w);
    assert l[1..] == w[1..];
    LowerFixesLowerCase(l[1..]);
  }

  /** Capitalizing is idempotent. */
  lemma CapitalizeIdempotent(s: string)
    ensures Capitalize(Capitalize(s)) == Capitalize(s)
  {
    if s != [] {
      var c := Capitalize(s);
      LowerIdempotent(s[1..]);
      assert c[1..] == Lower(s[1..]);
      assert UpperChar(UpperChar(s[0])) == UpperChar(s[0]);
    }
  }

  /** The length of the run of non-space characters that starts `s`. */
  function WordLength(s: string): (n: nat)
    ensures n <= |s|
    ensures forall i :: 0 <= i < n ==> !IsSpace(s[i])
    ensures n < |s| ==> IsSpace(s[n])
  {
    if s == [] || IsSpace(s[0]) then 0 else 1 + WordLength(s[1..])
  }

  /** `s.split()`: the maximal runs of non-space characters, in order. */
  function Words(s: string): (ws: seq<string>)
    ensures forall k :: 0 <= k < |ws| ==> ws[k] != [] && HasNoSpace(ws[k])
    decreases |s|
  {
    if s == [] then []
    else if IsSpace(s[0]) then Words(s[1..])
    else
      var n := WordLength(s);
      [s[..n]] + Words(s[n..])
  }

  predicate HasNoSpace(s: string) { forall i :: 0 <= i < |s| ==> !IsSpace(s[i]) }

  lemma {:induction false} WordLengthOfWord(w: string, rest: string)
    requires HasNoSpace(w)
    requires rest == [] || IsSpace(rest[0])
    ensures WordLength(w + rest) == |w|
  {
    if w == [] {
      assert w + rest == rest;
    } else {
      assert (w + rest)[1..] == w[1..] + rest;
      WordLengthOfWord(w[1..], rest);
    }
  }

  /** A non-empty string without spaces splits into itself. */
  lemma WordsOfWord(w: string)
    requires w != [] && HasNoSpace(w)
    ensures Words(w) == [w]
  {
    WordLengthOfWord(w, []);
    assert w + [] == w;
  }

  /** Two words joined by one space split back into those two words. */
  lemma WordsOfTwo(a: string, b: string)
    requires a != [] && HasNoSpace(a)
    requires b != [] && HasNoSpace(b)
    ensures Words(a + " " + b) == [a, b]
  {
    var s := a + " " + b;
    assert s == a + (" " + b);
    WordLengthOfWord(a, " " + b);
    assert s[..|a|] == a;
    assert s[|a|..] == " " + b;
    assert (" " + b)[1..] == b;
    WordsOfWord(b);
  }

  const Jpg: string := ".jpg"

  /** `s.replace('.jpg', '')`: every occurrence, scanning left to right, is removed. */
  function RemoveJpg(s: string): (r: string)
    ensures |r| <= |s|
  {
    if |s| < |Jpg| then s
    else if s[..|Jpg|] == Jpg then RemoveJpg(s[|Jpg|..])
    else [s[0]] + RemoveJpg(s[1..])
  }

  /** Removing `.jpg` from a file name whose stem has no '.' gives back the stem. */
  lemma {:induction false} RemoveJpgSuffix(w: string)
    requires '.' !in w
    ensures RemoveJpg(w + Jpg) == w
  {
    if w == [] {
      assert [] + Jpg == Jpg;
      assert Jpg[|Jpg|..] == [];
    } else {
      assert (w + Jpg)[..|Jpg|] != Jpg by { assert (w + Jpg)[0] == w[0]; }
      assert (w + Jpg)[1..] == w[1..] + Jpg;
      RemoveJpgSuffix(w[1..]);
    }
  }
}
