/**
 * The string operations of Python 2 that the cpin script relies on:
 * substring membership (`x in s`), deletion of a substring (`s.replace(x, '')`),
 * `s.strip()`, decimal rendering of integers (`str(n)`), and concatenation of
 * token lists.
 */
module Text {

  /** True when `p` is a prefix of `s`. */
  predicate StartsWith(s: string, p: string) {
    |p| <= |s| && s[..|p|] == p
  }

  /** Python's `needle in hay` on strings: substring containment (the empty string is in every string). */
  predicate Contains(hay: string, needle: string)
    decreases |hay|
  {
    StartsWith(hay, needle) || (|hay| > 0 && Contains(hay[1..], needle))
  }

  /** Containment means the needle starts at some position of the haystack. */
  lemma {:induction false} ContainsAt(hay: string, needle: string)
    ensures Contains(hay, needle) <==> exists i :: 0 <= i <= |hay| && StartsWith(hay[i..], needle)
    decreases |hay|
  {
    if StartsWith(hay, needle) {
      assert hay[0..] == hay;
    } else if |hay| == 0 {
      forall i | 0 <= i <= |hay| ensures !StartsWith(hay[i..], needle) {
        assert hay[i..] == hay;
      }
    } else {
      ContainsAt(hay[1..], needle);
      if Contains(hay[1..], needle) {
        var i :| 0 <= i <= |hay[1..]| && StartsWith(hay[1..][i..], needle);
        assert hay[1..][i..] == hay[i + 1..];
      } else {
        forall i | 0 <= i <= |hay| ensures !StartsWith(hay[i..], needle) {
          if i == 0 {
            assert hay[i..] == hay;
          } else {
            assert hay[1..][i - 1..] == hay[i..];
          }
        }
      }
    }
  }

  /** A needle is never contained in a shorter haystack. */
  lemma {:induction false} ContainsLength(hay: string, needle: string)
    requires Contains(hay, needle)
    ensures |needle| <= |hay|
    decreases |hay|
  {
    if !StartsWith(hay, needle) {
      ContainsLength(hay[1..], needle);
    }
  }

  /** The contrapositive form: a shorter haystack never contains the needle. */
  lemma ShorterLacks(hay: string, needle: string)
    requires |hay| < |needle|
    ensures !Contains(hay, needle)
  {
    if Contains(hay, needle) {
      ContainsLength(hay, needle);
    }
  }

  /** A needle starting at some position is contained. */
  lemma ContainsFrom(hay: string, needle: string, i: nat)
    requires i <= |hay| && StartsWith(hay[i..], needle)
    ensures Contains(hay, needle)
  {
    ContainsAt(hay, needle);
  }

  /** A needle found in either part is found in their concatenation. */
  lemma ContainsInConcat(a: string, b: string, needle: string)
    requires Contains(a, needle) || Contains(b, needle)
    ensures Contains(a + b, needle)
  {
    if Contains(a, needle) {
      ContainsAt(a, needle);
      var i :| 0 <= i <= |a| && StartsWith(a[i..], needle);
      assert (a + b)[i..] == a[i..] + b;
      assert (a[i..] + b)[..|needle|] == a[i..][..|needle|];
      ContainsFrom(a + b, needle, i);
    } else {
      ContainsAt(b, needle);
      var j :| 0 <= j <= |b| && StartsWith(b[j..], needle);
      assert (a + b)[|a| + j..] == b[j..];
      ContainsFrom(a + b, needle, |a| + j);
    }
  }

  /** A needle without spaces found in `a + " " + b` lies wholly within `a` or wholly within `b`. */
  lemma ContainsAcrossSpace(a: string, b: string, needle: string)
    requires ' ' !in needle && Contains(a + " " + b, needle)
    ensures Contains(a, needle) || Contains(b, needle)
  {
    var s := a + " " + b;
    ContainsAt(s, needle);
    ContainsAt(a, needle);
    ContainsAt(b, needle);
    var i :| 0 <= i <= |s| && StartsWith(s[i..], needle);
    assert !(i <= |a| < i + |needle|) by {
      assert s[|a|] == ' ';
      assert forall k :: i <= k < i + |needle| ==> s[k] == needle[k - i];
    }
    if i + |needle| <= |a| {
      assert a[i..][..|needle|] == s[i..][..|needle|];
      assert StartsWith(a[i..], needle);
    } else {
      assert b[i - |a| - 1..] == s[i..];
    }
  }

  /** A leading space adds no occurrence of a non-empty needle without spaces. */
  lemma ContainsAfterSpace(b: string, needle: string)
    requires |needle| > 0 && ' ' !in needle
    ensures Contains(" " + b, needle) ==> Contains(b, needle)
  {
    if Contains(" " + b, needle) {
      assert "" + " " + b == " " + b;
      ContainsAcrossSpace("", b, needle);
      ShorterLacks("", needle);
    }
  }

  /** Between strings of equal length, containment is equality. */
  lemma SameLengthContains(w: string, needle: string)
    requires |w| == |needle|
    ensures Contains(w, needle) <==> w == needle
  {
    ContainsAt(w, needle);
    if Contains(w, needle) {
      var i :| 0 <= i <= |w| && StartsWith(w[i..], needle);
      assert i == 0;
      assert w[0..] == w;
    } else {
      assert w[0..] == w;
    }
  }

  /** A word of the needle's length contains it exactly when it is the needle; an empty word never does. */
  lemma WordContains(w: string, needle: string)
    requires |needle| > 0 && (|w| == |needle| || |w| == 0)
    ensures Contains(w, needle) <==> w == needle
  {
    if |w| == 0 {
      ShorterLacks(w, needle);
    } else {
      SameLengthContains(w, needle);
    }
  }

  /** Words separated by single spaces, the form of the script's residue-name strings. */
  function JoinWords(ws: seq<string>): string
    decreases |ws|
  {
    if ws == [] then "" else if |ws| == 1 then ws[0] else ws[0] + " " + JoinWords(ws[1..])
  }

  /** One more word joined at the end. */
  lemma {:induction false} JoinWordsSnoc(ws: seq<string>, w: string)
    requires ws != []
    ensures JoinWords(ws + [w]) == JoinWords(ws) + " " + w
    decreases |ws|
  {
    assert (ws + [w])[1..] == ws[1..] + [w];
    if |ws| > 1 {
      JoinWordsSnoc(ws[1..], w);
    }
  }

  /**
   * For words of the needle's length, or empty ones (where a name was
   * deleted, leaving its two spaces), none holding a space, substring
   * containment in the joined string is membership in the word list.
   */
  lemma {:induction false} JoinWordsContains(ws: seq<string>, needle: string)
    requires |needle| > 0 && ' ' !in needle
    requires forall w :: w in ws ==> |w| == |needle| || |w| == 0
    ensures Contains(JoinWords(ws), needle) <==> needle in ws
    decreases |ws|
  {
    if ws == [] {
      ShorterLacks("", needle);
    } else if |ws| == 1 {
      WordContains(ws[0], needle);
    } else {
      var rest := JoinWords(ws[1..]);
      JoinWordsContains(ws[1..], needle);
      WordContains(ws[0], needle);
      assert ws == [ws[0]] + ws[1..];
      if Contains(JoinWords(ws), needle) {
        ContainsAcrossSpace(ws[0], rest, needle);
      } else if needle == ws[0] {
        ContainsInConcat(ws[0], " ", needle);
        ContainsInConcat(ws[0] + " ", rest, needle);
      } else if needle in ws[1..] {
        ContainsInConcat(ws[0] + " ", rest, needle);
      }
    }
  }

  /**
   * Python's `s.replace(pattern, '')` for a non-empty pattern: the occurrences
   * of `pattern` found scanning left to right, without overlap, are deleted.
   */
  function RemoveAll(s: string, pattern: string): (r: string)
    requires |pattern| > 0
    ensures |r| <= |s|
    decreases |s|
  {
    if |s| < |pattern| then s
    else if s[..|pattern|] == pattern then RemoveAll(s[|pattern|..], pattern)
    else [s[0]] + RemoveAll(s[1..], pattern)
  }

  /** An occurrence at the very start is deleted and the scan goes on after it. */
  lemma RemoveLeadingPattern(pattern: string, s: string)
    requires |pattern| > 0
    ensures RemoveAll(pattern + s, pattern) == RemoveAll(s, pattern)
  {
    var t := pattern + s;
    assert t[..|pattern|] == pattern && t[|pattern|..] == s;
  }

  /**
   * A character that cannot be part of the pattern splits the deletion:
   * no occurrence straddles it, so each side is scanned on its own.
   */
  lemma {:induction false} RemoveAroundChar(a: string, c: char, b: string, pattern: string)
    requires |pattern| > 0 && c !in pattern
    ensures RemoveAll(a + [c] + b, pattern) == RemoveAll(a, pattern) + [c] + RemoveAll(b, pattern)
    decreases |a|, 1
  {
    if |a + [c] + b| < |pattern| {
      RemoveShort(a, c, b, pattern);
    } else if StartsWith(a + [c] + b, pattern) {
      RemoveSkipMatch(a, c, b, pattern);
    } else if a == [] {
      RemoveAtChar(c, b, pattern);
    } else {
      RemoveKeepFirst(a, c, b, pattern);
    }
  }

  lemma {:induction false} RemoveSkipMatch(a: string, c: char, b: string, pattern: string)
    requires |pattern| > 0 && c !in pattern && StartsWith(a + [c] + b, pattern)
    ensures RemoveAll(a + [c] + b, pattern) == RemoveAll(a, pattern) + [c] + RemoveAll(b, pattern)
    decreases |a|, 0
  {
    RemoveAtMatch(a, c, b, pattern);
    RemoveAroundChar(a[|pattern|..], c, b, pattern);
  }

  lemma {:induction false} RemoveKeepFirst(a: string, c: char, b: string, pattern: string)
    requires |pattern| > 0 && c !in pattern && a != [] && |pattern| <= |a + [c] + b|
    requires !StartsWith(a + [c] + b, pattern)
    ensures RemoveAll(a + [c] + b, pattern) == RemoveAll(a, pattern) + [c] + RemoveAll(b, pattern)
    decreases |a|, 0
  {
    RemoveAtOther(a, c, b, pattern);
    RemoveAroundChar(a[1..], c, b, pattern);
  }

  /** Too short for the pattern: nothing is deleted anywhere. */
  lemma RemoveShort(a: string, c: char, b: string, pattern: string)
    requires |pattern| > 0 && |a + [c] + b| < |pattern|
    ensures RemoveAll(a + [c] + b, pattern) == RemoveAll(a, pattern) + [c] + RemoveAll(b, pattern)
  {
    assert RemoveAll(a, pattern) == a && RemoveAll(b, pattern) == b;
  }

  /** The separating character itself starts no match, so the scan keeps it. */
  lemma RemoveAtChar(c: char, b: string, pattern: string)
    requires |pattern| > 0 && |pattern| <= |[c] + b| && !StartsWith([c] + b, pattern)
    ensures RemoveAll([] + [c] + b, pattern) == RemoveAll([], pattern) + [c] + RemoveAll(b, pattern)
  {
    assert [] + [c] + b == [c] + b;
    assert ([c] + b)[1..] == b;
  }

  /** A match at the start of `a + [c] + b` is a match at the start of `a`; both scans skip it. */
  lemma RemoveAtMatch(a: string, c: char, b: string, pattern: string)
    requires |pattern| > 0 && c !in pattern && StartsWith(a + [c] + b, pattern)
    ensures |pattern| <= |a|
    ensures RemoveAll(a + [c] + b, pattern) == RemoveAll(a[|pattern|..] + [c] + b, pattern)
    ensures RemoveAll(a, pattern) == RemoveAll(a[|pattern|..], pattern)
  {
    CutBefore(a, c, b, pattern);
    assert (a + [c] + b)[|pattern|..] == a[|pattern|..] + [c] + b;
  }

  /** No match at the start of `a + [c] + b`: both scans keep the first character of `a`. */
  lemma RemoveAtOther(a: string, c: char, b: string, pattern: string)
    requires |pattern| > 0 && a != [] && |pattern| <= |a + [c] + b| && !StartsWith(a + [c] + b, pattern)
    ensures RemoveAll(a + [c] + b, pattern) == [a[0]] + RemoveAll(a[1..] + [c] + b, pattern)
    ensures RemoveAll(a, pattern) == [a[0]] + RemoveAll(a[1..], pattern)
  {
    var s := a + [c] + b;
    assert s[1..] == a[1..] + [c] + b;
    if |pattern| <= |a| {
      assert a[..|pattern|] == s[..|pattern|];
    } else {
      assert RemoveAll(a[1..], pattern) == a[1..];
    }
  }

  /** An occurrence at the start of `a + [c] + b` lies wholly within `a`. */
  lemma CutBefore(a: string, c: char, b: string, pattern: string)
    requires c !in pattern
    requires StartsWith(a + [c] + b, pattern)
    ensures StartsWith(a, pattern)
  {
    var s := a + [c] + b;
    assert |a| >= |pattern| by {
      assert s[|a|] == c;
    }
    assert a[..|pattern|] == s[..|pattern|];
  }

  /** Strings whose every character is whitespace. */
  predicate AllSpace(s: string) {
    forall k :: 0 <= k < |s| ==> IsSpace(s[k])
  }

  /** Strings with no whitespace character at all, such as residue names. */
  predicate NoSpace(s: string) {
    forall k :: 0 <= k < |s| ==> !IsSpace(s[k])
  }

  /** Whitespace around a string is kept by the deletion of a pattern without whitespace. */
  lemma RemovePadded(left: string, m: string, right: string, pattern: string)
    requires |pattern| > 0 && NoSpace(pattern) && AllSpace(left) && AllSpace(right)
    ensures RemoveAll(left + m + right, pattern) == left + RemoveAll(m, pattern) + right
  {
    assert left + m + right == left + (m + right);
    RemoveLeftPad(left, m + right, pattern);
    RemoveRightPad(m, right, pattern);
  }

  lemma {:induction false} RemoveLeftPad(left: string, m: string, pattern: string)
    requires |pattern| > 0 && NoSpace(pattern) && AllSpace(left)
    ensures RemoveAll(left + m, pattern) == left + RemoveAll(m, pattern)
    decreases |left|
  {
    if left != [] {
      assert left[0] !in pattern;
      assert left + m == [left[0]] + (left[1..] + m);
      RemoveLeadingChar(left[0], left[1..] + m, pattern);
      RemoveLeftPad(left[1..], m, pattern);
    } else {
      assert left + m == m;
    }
  }

  /** A leading character that cannot start the pattern is kept. */
  lemma RemoveLeadingChar(c: char, x: string, pattern: string)
    requires |pattern| > 0 && c !in pattern
    ensures RemoveAll([c] + x, pattern) == [c] + RemoveAll(x, pattern)
  {
    assert ([c] + x)[1..] == x;
    if |x| + 1 < |pattern| {
      assert RemoveAll(x, pattern) == x;
    } else {
      assert ([c] + x)[..|pattern|] != pattern by {
        assert ([c] + x)[0] == c;
      }
    }
  }

  lemma {:induction false} RemoveRightPad(m: string, right: string, pattern: string)
    requires |pattern| > 0 && NoSpace(pattern) && AllSpace(right)
    ensures RemoveAll(m + right, pattern) == RemoveAll(m, pattern) + right
    decreases |right|
  {
    if right != [] {
      var k := |right| - 1;
      assert right[k] !in pattern;
      assert m + right == (m + right[..k]) + [right[k]] + [];
      RemoveAroundChar(m + right[..k], right[k], [], pattern);
      assert RemoveAll([], pattern) == [];
      RemoveRightPad(m, right[..k], pattern);
      assert right == right[..k] + [right[k]];
    } else {
      assert m + right == m;
    }
  }

  /**
   * For words of the pattern's length or empty, deleting the pattern from
   * the joined words blanks out exactly the words equal to it.
   */
  lemma {:induction false} RemoveJoined(ws: seq<string>, pattern: string)
    requires |pattern| > 0 && ' ' !in pattern
    requires forall w :: w in ws ==> |w| == |pattern| || |w| == 0
    ensures RemoveAll(JoinWords(ws), pattern) == JoinWords(Blank(ws, pattern))
    decreases |ws|
  {
    if ws != [] {
      var b := Blank(ws, pattern);
      RemoveWord(ws[0], pattern);
      if |ws| > 1 {
        assert b[1..] == Blank(ws[1..], pattern);
        RemoveAroundChar(ws[0], ' ', JoinWords(ws[1..]), pattern);
        RemoveJoined(ws[1..], pattern);
      }
    }
  }

  /** The words with every word equal to `pattern` replaced by the empty word. */
  function Blank(ws: seq<string>, pattern: string): (r: seq<string>)
    ensures |r| == |ws|
    ensures forall i :: 0 <= i < |ws| ==> r[i] == if ws[i] == pattern then "" else ws[i]
  {
    seq(|ws|, i requires 0 <= i < |ws| => if ws[i] == pattern then "" else ws[i])
  }

  /** A word of the pattern's length is deleted exactly when it is the pattern. */
  lemma RemoveWord(w: string, pattern: string)
    requires |pattern| > 0 && (|w| == |pattern| || |w| == 0)
    ensures RemoveAll(w, pattern) == if w == pattern then "" else w
  {
    if |w| == |pattern| && w != pattern {
      assert w[..|w|] == w;
      assert RemoveAll(w[1..], pattern) == w[1..];
    }
  }

  /** Deleting a pattern changes the string exactly when the pattern occurs in it. */
  lemma {:induction false} RemoveAllUnchanged(s: string, pattern: string)
    requires |pattern| > 0
    ensures RemoveAll(s, pattern) == s <==> !Contains(s, pattern)
    decreases |s|
  {
    if |s| < |pattern| {
      ShorterLacks(s, pattern);
    } else if s[..|pattern|] == pattern {
      assert StartsWith(s, pattern);
    } else {
      assert !StartsWith(s, pattern);
      RemoveAllUnchanged(s[1..], pattern);
      assert |s| > 0;
      if RemoveAll(s, pattern) == s {
        assert RemoveAll(s[1..], pattern) == RemoveAll(s, pattern)[1..];
      }
    }
  }

  /** The whitespace characters of Python 2's `str.strip()`. */
  predicate IsSpace(c: char) {
    c == ' ' || c == '\t' || c == '\n' || c == '\r' || c == '\U{000B}' || c == '\U{000C}'
  }

  function StripLeft(s: string): string
    decreases |s|
  {
    if |s| > 0 && IsSpace(s[0]) then StripLeft(s[1..]) else s
  }

  /** `StripLeft` cuts a run of leading whitespace and nothing else. */
  lemma {:induction false} StripLeftSpec(s: string)
    ensures var r := StripLeft(s);
            |r| <= |s| && r == s[|s| - |r|..] && (r == [] || !IsSpace(r[0]))
            && forall k :: 0 <= k < |s| - |r| ==> IsSpace(s[k])
    decreases |s|
  {
    if |s| > 0 && IsSpace(s[0]) {
      StripLeftSpec(s[1..]);
    }
  }

  function StripRight(s: string): string
    decreases |s|
  {
    if |s| > 0 && IsSpace(s[|s| - 1]) then StripRight(s[..|s| - 1]) else s
  }

  /** `StripRight` cuts a run of trailing whitespace and nothing else. */
  lemma {:induction false} StripRightSpec(s: string)
    ensures var r := StripRight(s);
            |r| <= |s| && r == s[..|r|] && (r == [] || !IsSpace(r[|r| - 1]))
            && forall k :: |r| <= k < |s| ==> IsSpace(s[k])
    decreases |s|
  {
    if |s| > 0 && IsSpace(s[|s| - 1]) {
      StripRightSpec(s[..|s| - 1]);
    }
  }

  /** Python's `s.strip()`: the longest slice of `s` that neither starts nor ends with whitespace. */
  function Strip(s: string): string {
    StripLeft(StripRight(s))
  }

  /** The stripped string neither starts nor ends with whitespace, and only whitespace was cut from either end. */
  lemma StripSpec(s: string)
    ensures var r := Strip(s);
            (r == [] || (!IsSpace(r[0]) && !IsSpace(r[|r| - 1])))
            && exists i, j :: 0 <= i <= j <= |s| && r == s[i..j]
                              && (forall k :: 0 <= k < i ==> IsSpace(s[k]))
                              && (forall k :: j <= k < |s| ==> IsSpace(s[k]))
  {
    var t := StripRight(s);
    var r := StripLeft(t);
    StripRightSpec(s);
    StripLeftSpec(t);
    assert r == s[|t| - |r|..|t|];
  }

  /** Trailing whitespace makes no difference to the right strip. */
  lemma {:induction false} StripRightPad(s: string, right: string)
    requires AllSpace(right)
    ensures StripRight(s + right) == StripRight(s)
    decreases |right|
  {
    if right == [] {
      assert s + right == s;
    } else {
      var k := |right| - 1;
      assert (s + right)[..|s + right| - 1] == s + right[..k];
      StripRightPad(s, right[..k]);
    }
  }

  /** Leading whitespace makes no difference to the left strip. */
  lemma {:induction false} StripLeftPad(left: string, s: string)
    requires AllSpace(left)
    ensures StripLeft(left + s) == StripLeft(s)
    decreases |left|
  {
    if left == [] {
      assert left + s == s;
    } else {
      assert (left + s)[1..] == left[1..] + s;
      StripLeftPad(left[1..], s);
    }
  }

  /** A trimmed string padded with whitespace strips back to itself. */
  lemma StripExact(left: string, r: string, right: string)
    requires AllSpace(left) && AllSpace(right)
    requires r == [] || (!IsSpace(r[0]) && !IsSpace(r[|r| - 1]))
    ensures Strip(left + r + right) == r
  {
    StripRightPad(left + r, right);
    if r == [] {
      assert left + r == [] + left;
      StripRightPad([], left);
    } else {
      assert (left + r)[|left + r| - 1] == r[|r| - 1];
      StripLeftPad(left, r);
    }
  }

  /** Every string is its strip padded with whitespace on both sides. */
  lemma StripParts(s: string) returns (left: string, right: string)
    ensures AllSpace(left) && AllSpace(right) && s == left + Strip(s) + right
    ensures Strip(s) == [] || (!IsSpace(Strip(s)[0]) && !IsSpace(Strip(s)[|Strip(s)| - 1]))
  {
    var t := StripRight(s);
    right := StripRightParts(s);
    left := StripLeftParts(t);
    var r := StripLeft(t);
    if r != [] {
      assert r[|r| - 1] == t[|t| - 1];
    }
  }

  /** A string is its right strip followed by whitespace. */
  lemma StripRightParts(s: string) returns (right: string)
    ensures AllSpace(right) && s == StripRight(s) + right
    ensures StripRight(s) == [] || !IsSpace(StripRight(s)[|StripRight(s)| - 1])
  {
    var t := StripRight(s);
    StripRightSpec(s);
    right := s[|t|..];
    assert forall k :: 0 <= k < |right| ==> right[k] == s[|t| + k];
    assert s == s[..|t|] + right;
  }

  /** A string is whitespace followed by its left strip. */
  lemma StripLeftParts(t: string) returns (left: string)
    ensures AllSpace(left) && t == left + StripLeft(t)
    ensures StripLeft(t) == [] || !IsSpace(StripLeft(t)[0])
  {
    var r := StripLeft(t);
    StripLeftSpec(t);
    left := t[..|t| - |r|];
    assert forall k :: 0 <= k < |left| ==> left[k] == t[k];
    assert t == left + t[|t| - |r|..];
  }

  /** `strip()` is idempotent. */
  lemma StripTwice(s: string)
    ensures Strip(Strip(s)) == Strip(s)
  {
    var left, right := StripParts(s);
    StripExact([], Strip(s), []);
    assert [] + Strip(s) + [] == Strip(s);
  }

  /** A needle without whitespace is found in a string exactly when it is found in its strip. */
  lemma ContainsStripped(s: string, needle: string)
    requires |needle| > 0 && NoSpace(needle)
    ensures Contains(Strip(s), needle) <==> Contains(s, needle)
  {
    var left, right := StripParts(s);
    var m := Strip(s);
    if Contains(m, needle) {
      ContainsInConcat(left, m, needle);
      ContainsInConcat(left + m, right, needle);
    } else if Contains(left + m + right, needle) {
      ContainsInPadded(left, m, right, needle);
    }
  }

  /** An occurrence of a needle without whitespace in a padded string lies within the padded part. */
  lemma ContainsInPadded(left: string, m: string, right: string, needle: string)
    requires |needle| > 0 && NoSpace(needle) && AllSpace(left) && AllSpace(right)
    requires Contains(left + m + right, needle)
    ensures Contains(m, needle)
  {
    var s := left + m + right;
    var n := |needle|;
    ContainsAt(s, needle);
    var i :| 0 <= i <= |s| && StartsWith(s[i..], needle);
    OccurrenceInside(left, m, right, needle, i);
    var j := i - |left|;
    assert m[j..][..n] == s[i..][..n];
    ContainsFrom(m, needle, j);
  }

  lemma OccurrenceInside(left: string, m: string, right: string, needle: string, i: nat)
    requires |needle| > 0 && NoSpace(needle) && AllSpace(left) && AllSpace(right)
    requires i <= |left + m + right| && StartsWith((left + m + right)[i..], needle)
    ensures |left| <= i && i + |needle| <= |left| + |m|
  {
    var s := left + m + right;
    var n := |needle|;
    assert forall k :: 0 <= k < |left| ==> IsSpace(s[k]) by {
      assert forall k :: 0 <= k < |left| ==> s[k] == left[k];
    }
    assert forall k :: |left| + |m| <= k < |s| ==> IsSpace(s[k]) by {
      assert forall k :: |left| + |m| <= k < |s| ==> s[k] == right[k - |left| - |m|];
    }
    assert !IsSpace(s[i]) && !IsSpace(s[i + n - 1]) by {
      assert s[i] == s[i..][..n][0] && s[i + n - 1] == s[i..][..n][n - 1];
    }
  }

  /** Deleting a pattern without whitespace, then stripping, is unaffected by stripping first. */
  lemma StripRemove(s: string, pattern: string)
    requires |pattern| > 0 && NoSpace(pattern)
    ensures Strip(RemoveAll(s, pattern)) == Strip(RemoveAll(Strip(s), pattern))
  {
    var left, right := StripParts(s);
    var y := RemoveAll(Strip(s), pattern);
    RemovePadded(left, Strip(s), right, pattern);
    StripAround(left, y, right);
  }

  /** Whitespace added around a string makes no difference to its strip. */
  lemma StripAround(left: string, y: string, right: string)
    requires AllSpace(left) && AllSpace(right)
    ensures Strip(left + y + right) == Strip(y)
  {
    var l2, r2 := StripParts(y);
    var m := Strip(y);
    assert left + y + right == (left + l2) + m + (r2 + right);
    assert AllSpace(left + l2) by {
      assert forall k :: 0 <= k < |left| ==> (left + l2)[k] == left[k];
      assert forall k :: |left| <= k < |left + l2| ==> (left + l2)[k] == l2[k - |left|];
    }
    assert AllSpace(r2 + right) by {
      assert forall k :: 0 <= k < |r2| ==> (r2 + right)[k] == r2[k];
      assert forall k :: |r2| <= k < |r2 + right| ==> (r2 + right)[k] == right[k - |r2|];
    }
    StripExact(left + l2, m, r2 + right);
  }

  /** Stripping a string that is one space followed by a trimmed string gives that string. */
  lemma StripLeadingSpace(t: string)
    requires |t| > 0 && !IsSpace(t[0]) && !IsSpace(t[|t| - 1])
    ensures Strip(" " + t) == t
  {
    var s := " " + t;
    assert StripRight(s) == s by {
      assert s[|s| - 1] == t[|t| - 1];
    }
    assert s[1..] == t;
    assert StripLeft(s) == StripLeft(t);
  }

  /** The decimal digit character for `d`. */
  function DigitChar(d: nat): (c: char)
    requires d < 10
    ensures '0' <= c <= '9' && c as int - '0' as int == d
  {
    ('0' as int + d) as char
  }

  predicate IsDigits(s: string) {
    forall i :: 0 <= i < |s| ==> '0' <= s[i] <= '9'
  }

  /** Python's `str(n)` for a non-negative integer: decimal digits, no sign, no leading zeros. */
  function NatStr(n: nat): (s: string)
    ensures |s| >= 1 && IsDigits(s)
    ensures |s| > 1 ==> s[0] != '0'
    decreases n
  {
    if n < 10 then [DigitChar(n)] else NatStr(n / 10) + [DigitChar(n % 10)]
  }

  /** Python's `str(i)` for any integer: a minus sign before the digits of a negative number. */
  function IntStr(i: int): (s: string)
    ensures i >= 0 ==> s == NatStr(i)
    ensures i < 0 ==> s == "-" + NatStr(-i)
  {
    if i < 0 then "-" + NatStr(-i) else NatStr(i)
  }

  /** Reads a string of decimal digits back as a number (Python's `int(s)` on such strings). */
  function ParseNat(s: string): nat
    requires IsDigits(s)
    decreases |s|
  {
    if s == [] then 0 else ParseNat(s[..|s| - 1]) * 10 + (s[|s| - 1] as int - '0' as int)
  }

  /** Round trip: reading back the rendered number gives the number. */
  lemma {:induction false} ParseNatStr(n: nat)
    ensures ParseNat(NatStr(n)) == n
    decreases n
  {
    var s := NatStr(n);
    if n >= 10 {
      ParseNatStr(n / 10);
      assert s[..|s| - 1] == NatStr(n / 10);
    }
  }

  /** Rendering is injective: two numbers print the same only when they are equal. */
  lemma NatStrInjective(m: nat, n: nat)
    requires NatStr(m) == NatStr(n)
    ensures m == n
  {
    ParseNatStr(m);
    ParseNatStr(n);
  }

  /** Concatenation of a list of strings (or of any sequences). */
  function Concat<T>(xs: seq<seq<T>>): seq<T>
    decreases |xs|
  {
    if xs == [] then [] else xs[0] + Concat(xs[1..])
  }

  lemma {:induction false} ConcatAppend<T>(a: seq<seq<T>>, b: seq<seq<T>>)
    ensures Concat(a + b) == Concat(a) + Concat(b)
    decreases |a|
  {
    if a == [] {
      assert a + b == b;
    } else {
      assert (a + b)[1..] == a[1..] + b;
      ConcatAppend(a[1..], b);
    }
  }

  /** Element `j` of part `i` sits in the concatenation after all earlier parts. */
  lemma ConcatIndex<T>(xs: seq<seq<T>>, i: nat, j: nat)
    requires i < |xs| && j < |xs[i]|
    ensures |Concat(xs[..i])| + j < |Concat(xs)|
    ensures Concat(xs)[|Concat(xs[..i])| + j] == xs[i][j]
  {
    assert xs == xs[..i] + ([xs[i]] + xs[i + 1..]);
    ConcatAppend(xs[..i], [xs[i]] + xs[i + 1..]);
    ConcatAppend([xs[i]], xs[i + 1..]);
    assert Concat([xs[i]]) == xs[i];
  }

  /** One more part of a concatenation, taken from the left. */
  lemma ConcatSnoc<T>(xs: seq<seq<T>>, i: nat)
    requires i < |xs|
    ensures Concat(xs[..i + 1]) == Concat(xs[..i]) + xs[i]
  {
    assert xs[..i + 1] == xs[..i] + [xs[i]];
    ConcatAppend(xs[..i], [xs[i]]);
    assert Concat([xs[i]]) == xs[i] + Concat([xs[i]][1..]);
  }
}
