/** Character classes and string operations the claim pipeline relies on,
    restricted to ASCII: digits, letters, whitespace, lower-casing, substring
    occurrence, whitespace stripping, joining, and single-character
    replacement and deletion. */
module Text {

  /** An ASCII decimal digit (the part of `\d` this model covers). */
  predicate IsDigit(c: char) {
    '0' <= c <= '9'
  }

  predicate IsUpper(c: char) {
    'A' <= c <= 'Z'
  }

  /** An ASCII letter of either case. */
  predicate IsLetter(c: char) {
    IsUpper(c) || 'a' <= c <= 'z'
  }

  /** Whitespace as both `\s` and `str.strip()` see it, restricted to ASCII:
      tab, line feed, vertical tab, form feed, carriage return, the four
      information separators 0x1C..0x1F, and space. */
  predicate IsSpace(c: char) {
    c == ' ' || '\t' <= c <= '\r' || '\U{1C}' <= c <= '\U{1F}'
  }

  predicate AllDigits(s: string) {
    forall i :: 0 <= i < |s| ==> IsDigit(s[i])
  }

  /** ASCII lower-casing of one character; everything else is unchanged. */
  function LowerChar(c: char): (d: char)
    ensures !IsUpper(d)
    ensures !IsUpper(c) ==> d == c
    ensures IsUpper(c) ==> d as int - c as int == 'a' as int - 'A' as int
  {
    if IsUpper(c) then (c as int - 'A' as int + 'a' as int) as char else c
  }

  /** `str.lower()` on ASCII text. */
  function Lower(s: string): (r: string)
    ensures |r| == |s|
    ensures forall i :: 0 <= i < |s| ==> r[i] == LowerChar(s[i])
    ensures forall i :: 0 <= i < |r| ==> !IsUpper(r[i])
  {
    seq(|s|, i requires 0 <= i < |s| => LowerChar(s[i]))
  }

  /** Text without upper-case letters is its own lower-case form. */
  lemma LowerOfLower(s: string)
    requires forall i :: 0 <= i < |s| ==> !IsUpper(s[i])
    ensures Lower(s) == s
  {
  }

  /** Lower-casing commutes with slicing. */
  lemma LowerSlice(s: string, i: nat, j: nat)
    requires i <= j <= |s|
    ensures Lower(s[i..j]) == Lower(s)[i..j]
  {
  }

  // ---------------------------------------------------------------------
  // Substring occurrence: the meaning of Python's `w in text`
  // ---------------------------------------------------------------------

  /** `w` occurs in `text` starting at index `i`. */
  predicate OccursAt(text: string, w: string, i: int) {
    0 <= i && i + |w| <= |text| && text[i..i + |w|] == w
  }

  ghost predicate Occurs(text: string, w: string) {
    exists i :: OccursAt(text, w, i)
  }

  /** A word with a character the text lacks does not occur in it. */
  lemma AbsentCharNoOccurrence(text: string, w: string, x: char)
    requires x in w && x !in text
    ensures !Occurs(text, w)
  {
    var k :| 0 <= k < |w| && w[k] == x;
    forall i ensures !OccursAt(text, w, i) {
      if 0 <= i && i + |w| <= |text| {
        assert text[i..i + |w|][k] == text[i + k] != x;
      }
    }
  }

  /** Scans `text` from position `i` onwards for an occurrence of `w`. */
  function ContainsFrom(text: string, w: string, i: nat): (r: bool)
    requires i <= |text|
    ensures r <==> exists j :: i <= j && OccursAt(text, w, j)
    decreases |text| - i
  {
    if OccursAt(text, w, i) then true
    else if i == |text| then false
    else ContainsFrom(text, w, i + 1)
  }

  /** Python's `w in text`. */
  function Contains(text: string, w: string): (r: bool)
    ensures r <==> Occurs(text, w)
  {
    ContainsFrom(text, w, 0)
  }

  // ---------------------------------------------------------------------
  // Character replacement and deletion
  // ---------------------------------------------------------------------

  /** `s.replace(a, b)` for single characters `a` and `b`. */
  function ReplaceChar(s: string, a: char, b: char): (r: string)
    ensures |r| == |s|
    ensures a != b ==> a !in r
    ensures forall i :: 0 <= i < |s| && s[i] == a ==> r[i] == b
    ensures forall i :: 0 <= i < |s| && s[i] != a ==> r[i] == s[i]
  {
    seq(|s|, i requires 0 <= i < |s| => if s[i] == a then b else s[i])
  }

  /** Replacing a character in a joined text replaces it in each part. */
  lemma ReplaceCharAppend(s: string, t: string, a: char, b: char)
    ensures ReplaceChar(s + t, a, b) == ReplaceChar(s, a, b) + ReplaceChar(t, a, b)
  {
    var r := ReplaceChar(s + t, a, b);
    var q := ReplaceChar(s, a, b) + ReplaceChar(t, a, b);
    forall i | 0 <= i < |r| ensures r[i] == q[i] {
      if i < |s| {
        assert (s + t)[i] == s[i];
      } else {
        assert (s + t)[i] == t[i - |s|];
      }
    }
  }

  /** A text without the replaced character is left as it is. */
  lemma ReplaceCharAbsent(s: string, a: char, b: char)
    requires a !in s
    ensures ReplaceChar(s, a, b) == s
  {
    var r := ReplaceChar(s, a, b);
    assert forall i :: 0 <= i < |s| ==> r[i] == s[i];
  }

  /** `s.replace(c, "")`: every occurrence of `c` removed, the other
      characters kept in order. */
  function DeleteChar(s: string, c: char): (r: string)
    ensures c !in r
    ensures forall x :: x in r <==> x in s && x != c
    ensures |r| <= |s|
    ensures c !in s ==> r == s
    ensures |s| == 1 ==> r == (if s[0] == c then [] else s)
  {
    if s == [] then []
    else (if s[0] == c then [] else [s[0]]) + DeleteChar(s[1..], c)
  }

  /** Deletion works piecewise: deleting from a concatenation deletes from
      each part and keeps the parts in order. With the one-character case
      above this determines the result for every text. */
  lemma {:induction false} DeleteCharAppend(a: string, b: string, c: char)
    ensures DeleteChar(a + b, c) == DeleteChar(a, c) + DeleteChar(b, c)
    decreases |a|
  {
    if a != [] {
      assert (a + b)[0] == a[0];
      assert (a + b)[1..] == a[1..] + b;
      DeleteCharAppend(a[1..], b, c);
    } else {
      assert a + b == b;
    }
  }

  /** Deleting the one occurrence of `c` joins the text around it. */
  lemma DeleteCharBetween(a: string, c: char, b: string)
    requires c !in a && c !in b
    ensures DeleteChar(a + [c] + b, c) == a + b
  {
    DeleteCharAppend(a + [c], b, c);
    DeleteCharAppend(a, [c], c);
  }

  // ---------------------------------------------------------------------
  // Whitespace stripping: `str.strip()`
  // ---------------------------------------------------------------------

  /** The first position at or after `i` that does not hold whitespace. */
  function SkipSpaces(s: string, i: nat): (j: nat)
    requires i <= |s|
    ensures i <= j <= |s|
    ensures forall k :: i <= k < j ==> IsSpace(s[k])
    ensures j < |s| ==> !IsSpace(s[j])
    decreases |s| - i
  {
    if i < |s| && IsSpace(s[i]) then SkipSpaces(s, i + 1) else i
  }

  /** The end of `s[..j]` once its trailing whitespace is dropped. */
  function TrimEnd(s: string, j: nat): (k: nat)
    requires j <= |s|
    ensures k <= j
    ensures forall m :: k <= m < j ==> IsSpace(s[m])
    ensures k > 0 ==> !IsSpace(s[k - 1])
  {
    if j > 0 && IsSpace(s[j - 1]) then TrimEnd(s, j - 1) else j
  }

  /** Neither end of `r` is whitespace. */
  predicate IsStripped(r: string) {
    r == [] || (!IsSpace(r[0]) && !IsSpace(r[|r| - 1]))
  }

  /** `s` is `r` surrounded by whitespace, with `r` starting at `a`. */
  predicate PaddedAt(s: string, r: string, a: nat) {
    && a + |r| <= |s|
    && s[a..a + |r|] == r
    && (forall k :: 0 <= k < a ==> IsSpace(s[k]))
    && (forall k :: a + |r| <= k < |s| ==> IsSpace(s[k]))
  }

  /** `str.strip()`: `s` without its leading and trailing whitespace. */
  function Strip(s: string): (r: string)
    ensures IsStripped(r)
    ensures exists a: nat :: PaddedAt(s, r, a)
  {
    var a := SkipSpaces(s, 0);
    var b := TrimEnd(s, |s|);
    if a < b then
      assert PaddedAt(s, s[a..b], a);
      s[a..b]
    else
      assert PaddedAt(s, [], 0) by {
        forall k | 0 <= k < |s| ensures IsSpace(s[k]) {
          if k >= b {
          } else {
            assert k < a;
          }
        }
      }
      []
  }

  /** Strip is determined by its contract: a stripped string that `s` pads
      with whitespace is exactly `Strip(s)`. */
  lemma {:induction false} StripUnique(s: string, r: string, a: nat)
    requires IsStripped(r) && PaddedAt(s, r, a)
    ensures r == Strip(s)
  {
    var r' := Strip(s);
    var a': nat :| PaddedAt(s, r', a');
    if r != [] {
      assert s[a] == r[0];
    }
    if r' != [] {
      assert s[a'] == r'[0];
    }
    if r != [] && r' != [] {
      assert a == a';
      assert s[a + |r| - 1] == r[|r| - 1] && s[a' + |r'| - 1] == r'[|r'| - 1];
    }
  }

  /** Stripping twice strips nothing more. */
  lemma StripIdempotent(s: string)
    ensures Strip(Strip(s)) == Strip(s)
  {
    var r := Strip(s);
    assert PaddedAt(r, r, 0);
    StripUnique(r, r, 0);
  }

  // ---------------------------------------------------------------------
  // Joining: `sep.join(xs)`
  // ---------------------------------------------------------------------

  /** The summed length of the items. */
  function TotalLength(xs: seq<string>): nat {
    if xs == [] then 0 else |xs[0]| + TotalLength(xs[1..])
  }

  /** `sep.join(xs)`: the items in order with one separator between
      neighbours, and nothing else. */
  function Join(sep: string, xs: seq<string>): (r: string)
    ensures xs == [] ==> r == []
    ensures |xs| == 1 ==> r == xs[0]
    ensures xs != [] ==> |r| == TotalLength(xs) + (|xs| - 1) * |sep|
  {
    if |xs| == 0 then ""
    else if |xs| == 1 then xs[0]
    else xs[0] + sep + Join(sep, xs[1..])
  }

  /** Every joined item appears in the joined text. */
  lemma {:induction false} JoinMentions(sep: string, xs: seq<string>, k: nat)
    requires k < |xs|
    ensures OccursAt(Join(sep, xs), xs[k], JoinOffset(sep, xs, k))
    decreases k
  {
    if k == 0 {
      if |xs| > 1 {
        assert Join(sep, xs) == xs[0] + (sep + Join(sep, xs[1..]));
      }
    } else {
      JoinMentions(sep, xs[1..], k - 1);
      var rest := Join(sep, xs[1..]);
      var o := JoinOffset(sep, xs[1..], k - 1);
      var p := |xs[0]| + |sep|;
      assert Join(sep, xs) == (xs[0] + sep) + rest;
      assert Join(sep, xs)[p + o..p + o + |xs[k]|] == rest[o..o + |xs[k]|];
    }
  }

  /** The separator sits right after every item but the last, so together
      with `JoinMentions` and the length of `Join` each position of the
      joined text is accounted for. */
  lemma {:induction false} JoinSeparators(sep: string, xs: seq<string>, k: nat)
    requires k + 1 < |xs|
    ensures OccursAt(Join(sep, xs), sep, JoinOffset(sep, xs, k) + |xs[k]|)
    decreases k
  {
    var rest := Join(sep, xs[1..]);
    var p := |xs[0]| + |sep|;
    assert Join(sep, xs) == (xs[0] + sep) + rest;
    if k == 0 {
      assert Join(sep, xs)[|xs[0]|..p] == sep;
    } else {
      JoinSeparators(sep, xs[1..], k - 1);
      var o := JoinOffset(sep, xs[1..], k - 1) + |xs[k]|;
      assert Join(sep, xs)[p + o..p + o + |sep|] == rest[o..o + |sep|];
    }
  }

  /** Where `Join` places `xs[k]`. */
  function JoinOffset(sep: string, xs: seq<string>, k: nat): nat
    requires k < |xs|
  {
    if k == 0 then 0 else |xs[0]| + |sep| + JoinOffset(sep, xs[1..], k - 1)
  }
}
