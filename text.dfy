/** The pandas string accessors the scripts use (`astype(str)`, `str.upper`,
    `str.lower`, `str.strip`, `str.replace`) on `string` values. Case mapping is
    the ASCII one; whitespace is Python's `str.isspace` set. */
module Text {
  import opened Frames

  /** `astype(str)`: a missing cell becomes the text "nan". */
  function AsStr(cell: Option<string>): string
  {
    match cell
    case None => "nan"
    case Some(s) => s
  }

  predicate IsLowerLetter(c: char) { 'a' <= c <= 'z' }

  predicate IsUpperLetter(c: char) { 'A' <= c <= 'Z' }

  function UpperChar(c: char): (u: char)
    ensures !IsLowerLetter(u)
    ensures u == c || (IsLowerLetter(c) && IsUpperLetter(u))
  {
    if IsLowerLetter(c) then (c as int - 32) as char else c
  }

  function LowerChar(c: char): (l: char)
    ensures !IsUpperLetter(l)
    ensures l == c || (IsUpperLetter(c) && IsLowerLetter(l))
  {
    if IsUpperLetter(c) then (c as int + 32) as char else c
  }

  /** `str.upper()`: no lower-case letter survives; nothing else changes. */
  function Upper(s: string): (u: string)
    ensures |u| == |s|
    ensures forall i :: 0 <= i < |s| ==> u[i] == UpperChar(s[i])
    ensures forall c :: c in u ==> !IsLowerLetter(c)
  {
    Map(s, UpperChar)
  }

  /** `str.lower()`. */
  function Lower(s: string): (l: string)
    ensures |l| == |s|
    ensures forall i :: 0 <= i < |s| ==> l[i] == LowerChar(s[i])
    ensures forall c :: c in l ==> !IsUpperLetter(c)
  {
    Map(s, LowerChar)
  }

  /** The characters Python's `str.isspace` accepts, which `str.strip()` removes. */
  predicate IsSpace(c: char)
  {
    c == ' ' || '\t' <= c <= '\r' || '\U{1C}' <= c <= '\U{1F}'
    || c == '\U{85}' || c == '\U{A0}' || c == '\U{1680}'
    || '\U{2000}' <= c <= '\U{200A}' || c == '\U{2028}' || c == '\U{2029}'
    || c == '\U{202F}' || c == '\U{205F}' || c == '\U{3000}'
  }

  /** `str.lstrip()`: drops the leading whitespace, nothing else. */
  function StripStart(s: string): (r: string)
    ensures |r| <= |s| && r == s[|s| - |r|..]
    ensures r == [] || !IsSpace(r[0])
    ensures forall i :: 0 <= i < |s| - |r| ==> IsSpace(s[i])
  {
    if s != [] && IsSpace(s[0]) then StripStart(s[1..]) else s
  }

  /** `str.rstrip()`: drops the trailing whitespace, nothing else. */
  function StripEnd(s: string): (r: string)
    ensures |r| <= |s| && r == s[..|r|]
    ensures r == [] || !IsSpace(r[|r| - 1])
    ensures forall i :: |r| <= i < |s| ==> IsSpace(s[i])
  {
    if s != [] && IsSpace(s[|s| - 1]) then StripEnd(s[..|s| - 1]) else s
  }

  /** `str.strip()`: a contiguous slice of the text that neither starts nor
      ends with whitespace; `StripRemovesOnlySpace` shows that everything
      around the slice is whitespace. */
  function Strip(s: string): (r: string)
    ensures r == [] || (!IsSpace(r[0]) && !IsSpace(r[|r| - 1]))
    ensures |s| - |StripStart(s)| + |r| <= |s|
    ensures r == s[|s| - |StripStart(s)|..|s| - |StripStart(s)| + |r|]
  {
    StripEnd(StripStart(s))
  }

  /** What `strip` removes, at either end of a text, is whitespace. */
  lemma StripRemovesOnlySpace(s: string)
    ensures forall i :: 0 <= i < |s| - |StripStart(s)| ==> IsSpace(s[i])
    ensures forall i :: |s| - |StripStart(s)| + |Strip(s)| <= i < |s| ==> IsSpace(s[i])
  {
    var t := StripStart(s);
    var k := |s| - |t|;
    forall i | k + |StripEnd(t)| <= i < |s|
      ensures IsSpace(s[i])
    {
      assert s[i] == t[i - k];
    }
  }

  /** A text that neither starts nor ends with whitespace is left alone by
      `strip`. */
  lemma StripKeepsTrimmed(s: string)
    requires s == [] || (!IsSpace(s[0]) && !IsSpace(s[|s| - 1]))
    ensures Strip(s) == s
  {
  }

  /** Stripping one space from each side of a trimmed text gives it back. */
  lemma StripPadded(s: string)
    requires s == [] || (!IsSpace(s[0]) && !IsSpace(s[|s| - 1]))
    ensures Strip([' '] + s + [' ']) == s
  {
    var p := [' '] + s + [' '];
    assert p[1..] == s + [' '];
    assert StripStart(p) == StripStart(s + [' ']);
    if s == [] {
      assert StripStart([' ']) == StripStart([]);
    } else {
      assert StripStart(s + [' ']) == s + [' '];
      assert (s + [' '])[..|s|] == s;
    }
  }

  /** `strip` is idempotent. */
  lemma StripIdempotent(s: string)
    ensures Strip(Strip(s)) == Strip(s)
  {
    StripKeepsTrimmed(Strip(s));
  }

  /** `str.replace(c, "")` for a one-character pattern: every occurrence of
      `c` removed, everything else kept in order. */
  function RemoveChar(s: string, c: char): (r: string)
    ensures c !in r
    ensures forall x :: x in s && x != c ==> x in r
    ensures IsSubsequence(r, s)
  {
    var keep := (x: char) => x != c;
    FilterIsSubsequence(s, keep);
    Filter(s, keep)
  }

  /** `RemoveChar` keeps every other character as often as it occurs and no
      occurrence of the removed one. */
  lemma RemoveCharCounts(s: string, c: char)
    ensures multiset(RemoveChar(s, c)) == multiset(s)[c := 0]
  {
    var keep := (x: char) => x != c;
    forall x
      ensures multiset(Filter(s, keep))[x] == multiset(s)[c := 0][x]
    {
      FilterMultiset(s, keep, x);
    }
  }

  /** `str.replace(a, b)` for one-character `a` and `b`. */
  function ReplaceChar(s: string, a: char, b: char): (r: string)
    ensures |r| == |s|
    ensures a != b ==> a !in r
    ensures forall i :: 0 <= i < |s| && s[i] != a ==> r[i] == s[i]
    ensures forall i :: 0 <= i < |s| && s[i] == a ==> r[i] == b
  {
    Map(s, x => if x == a then b else x)
  }

  /** Replacing a character that does not occur changes nothing. */
  lemma ReplaceAbsentChar(s: string, a: char, b: char)
    requires a !in s
    ensures ReplaceChar(s, a, b) == s
  {
    assert forall i :: 0 <= i < |s| ==> s[i] != a;
  }

  /** Replacing the one occurrence of a character in the middle of a text. */
  lemma ReplaceCharSplit(a: string, b: string, x: char, y: char)
    requires x !in a && x !in b
    ensures ReplaceChar(a + [x] + b, x, y) == a + [y] + b
  {
    var s := a + [x] + b;
    forall i | 0 <= i < |s|
      ensures ReplaceChar(s, x, y)[i] == (a + [y] + b)[i]
    {
      if i < |a| {
        assert s[i] == a[i];
      } else if i > |a| {
        assert s[i] == b[i - |a| - 1];
      }
    }
  }

  lemma {:induction false} UpperAppend(a: string, b: string)
    ensures Upper(a + b) == Upper(a) + Upper(b)
  {
    assert forall i :: 0 <= i < |a + b| ==> Upper(a + b)[i] == (Upper(a) + Upper(b))[i];
  }

  /** Upper-casing maps whitespace to itself and nothing else to whitespace. */
  lemma UpperCharKeepsSpace(c: char)
    ensures IsSpace(UpperChar(c)) <==> IsSpace(c)
  {
  }

  /** Upper-casing an upper-case text changes nothing. */
  lemma UpperKeepsUpper(s: string)
    requires forall c :: c in s ==> !IsLowerLetter(c)
    ensures Upper(s) == s
  {
    assert forall i :: 0 <= i < |s| ==> s[i] in s;
  }

  /** Removing a character that does not occur changes nothing. */
  lemma RemoveAbsentChar(s: string, c: char)
    requires c !in s
    ensures RemoveChar(s, c) == s
  {
    FilterAll(s, x => x != c);
  }

  /** Upper-casing keeps a text free of spaces at both ends. */
  lemma UpperKeepsTrimmed(s: string)
    requires s == [] || (!IsSpace(s[0]) && !IsSpace(s[|s| - 1]))
    ensures Upper(s) == [] || (!IsSpace(Upper(s)[0]) && !IsSpace(Upper(s)[|s| - 1]))
  {
    if s != [] {
      UpperCharKeepsSpace(s[0]);
      UpperCharKeepsSpace(s[|s| - 1]);
    }
  }

  /** Upper-casing never creates or destroys a space. */
  lemma UpperKeepsSpaces(s: string)
    ensures ' ' in Upper(s) <==> ' ' in s
  {
    if ' ' in s {
      var i :| 0 <= i < |s| && s[i] == ' ';
      assert Upper(s)[i] == ' ';
    }
  }

  /** Removing spaces distributes over concatenation. */
  lemma RemoveCharAppend(a: string, b: string, c: char)
    ensures RemoveChar(a + b, c) == RemoveChar(a, c) + RemoveChar(b, c)
  {
    FilterAppend(a, b, x => x != c);
  }

  /** Removing `d` from a text with a different character in the middle. */
  lemma RemoveCharSplit(a: string, c: char, b: string, d: char)
    requires c != d
    ensures RemoveChar(a + [c] + b, d) == RemoveChar(a, d) + [c] + RemoveChar(b, d)
  {
    RemoveCharAppend(a + [c], b, d);
    RemoveCharAppend(a, [c], d);
    RemoveAbsentChar([c], d);
  }

  lemma UpperSplit(a: string, c: char, b: string)
    ensures Upper(a + [c] + b) == Upper(a) + [UpperChar(c)] + Upper(b)
  {
    UpperAppend(a + [c], b);
    UpperAppend(a, [c]);
  }
}
