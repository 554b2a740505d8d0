/** Text as a sequence of Unicode scalar values, with the trimming operations of Rust's
    `str` that the rest of the model uses.  Byte offsets become character offsets. */
module Text {
  import opened Sequences

  datatype Option<+T> = None | Some(value: T)

  /** The Unicode White_Space property, as `char::is_whitespace` decides it. */
  predicate IsWhitespace(c: char) {
    || '\t' <= c <= '\r'
    || c == ' '
    || c == '\U{85}'
    || c == '\U{A0}'
    || c == '\U{1680}'
    || '\U{2000}' <= c <= '\U{200A}'
    || '\U{2028}' <= c <= '\U{2029}'
    || c == '\U{202F}'
    || c == '\U{205F}'
    || c == '\U{3000}'
  }

  predicate IsDigit(c: char) { '0' <= c <= '9' }

  predicate IsAsciiAlphabetic(c: char) { 'a' <= c <= 'z' || 'A' <= c <= 'Z' }

  predicate IsAsciiAlphanumeric(c: char) { IsDigit(c) || IsAsciiAlphabetic(c) }

  /** The first character of an identifier or any later one. */
  predicate IsIdentifierCharacter(c: char) { IsAsciiAlphanumeric(c) || c == '_' }

  function LowerAscii(c: char): char {
    if 'A' <= c <= 'Z' then (c as int + 32) as char else c
  }

  /** The 25 white-space characters and the ten digits by number, and the 26 pairs of letters. */
  lemma CharacterTables(c: char)
    ensures IsWhitespace(c) <==> c as int in {
      9, 10, 11, 12, 13, 32, 133, 160, 5760, 8192, 8193, 8194, 8195, 8196, 8197, 8198, 8199, 8200, 8201, 8202,
      8232, 8233, 8239, 8287, 12288}
    ensures IsDigit(c) <==> c as int in {48, 49, 50, 51, 52, 53, 54, 55, 56, 57}
    ensures LowerAscii(c) != c <==> c in "ABCDEFGHIJKLMNOPQRSTUVWXYZ"
    ensures forall k :: 0 <= k < 26 ==>
      LowerAscii("ABCDEFGHIJKLMNOPQRSTUVWXYZ"[k]) == "abcdefghijklmnopqrstuvwxyz"[k]
    ensures IsAsciiAlphabetic(c) <==> LowerAscii(c) in "abcdefghijklmnopqrstuvwxyz"
    ensures IsIdentifierCharacter(c) <==> IsDigit(c) || c == '_' || LowerAscii(c) in "abcdefghijklmnopqrstuvwxyz"
  {
    Letters(c);
    LettersLowered();
  }

  lemma Letters(c: char)
    ensures c in "ABCDEFGHIJKLMNOPQRSTUVWXYZ" <==> 65 <= c as int <= 90
    ensures c in "abcdefghijklmnopqrstuvwxyz" <==> 97 <= c as int <= 122
  {
    var upper, lower := "ABCDEFGHIJKLMNOPQRSTUVWXYZ", "abcdefghijklmnopqrstuvwxyz";
    assert forall k :: 0 <= k < 26 ==> upper[k] as int == 65 + k && lower[k] as int == 97 + k;
    if 65 <= c as int <= 90 {
      assert upper[c as int - 65] == c;
    }
    if 97 <= c as int <= 122 {
      assert lower[c as int - 97] == c;
    }
  }

  lemma LettersLowered()
    ensures forall k :: 0 <= k < 26 ==>
      LowerAscii("ABCDEFGHIJKLMNOPQRSTUVWXYZ"[k]) == "abcdefghijklmnopqrstuvwxyz"[k]
  {
    var upper, lower := "ABCDEFGHIJKLMNOPQRSTUVWXYZ", "abcdefghijklmnopqrstuvwxyz";
    assert forall k :: 0 <= k < 26 ==> upper[k] as int == 65 + k && lower[k] as int == 97 + k;
  }

  function LowerAsciiText(s: string): (r: string)
    ensures |r| == |s|
    ensures forall i :: 0 <= i < |s| ==> r[i] == LowerAscii(s[i])
  {
    seq(|s|, i requires 0 <= i < |s| => LowerAscii(s[i]))
  }

  /** The length of the longest leading run of characters that satisfy `p`. */
  function LeadingRun(p: char -> bool, s: string): (n: nat)
    ensures n <= |s|
    ensures forall i :: 0 <= i < n ==> p(s[i])
    ensures n < |s| ==> !p(s[n])
  {
    if s != [] && p(s[0]) then 1 + LeadingRun(p, s[1..]) else 0
  }

  /** Where the longest trailing run of characters that satisfy `p` starts. */
  function TrailingRunStart(p: char -> bool, s: string): (n: nat)
    ensures n <= |s|
    ensures forall i :: n <= i < |s| ==> p(s[i])
    ensures n > 0 ==> !p(s[n - 1])
  {
    if s != [] && p(s[|s| - 1]) then TrailingRunStart(p, s[..|s| - 1]) else |s|
  }

  function DropWhile(p: char -> bool, s: string): string { s[LeadingRun(p, s)..] }

  function DropWhileEnd(p: char -> bool, s: string): string { s[..TrailingRunStart(p, s)] }

  function TrimBy(p: char -> bool, s: string): (r: string)
    ensures |r| <= |s|
  {
    DropWhileEnd(p, DropWhile(p, s))
  }

  function TrimStart(s: string): string { DropWhile(IsWhitespace, s) }

  function TrimEnd(s: string): string { DropWhileEnd(IsWhitespace, s) }

  function Trim(s: string): (r: string)
    ensures |r| <= |s|
  {
    TrimBy(IsWhitespace, s)
  }

  ghost predicate All(p: char -> bool, s: string) { forall i :: 0 <= i < |s| ==> p(s[i]) }

  ghost predicate Blank(s: string) { All(IsWhitespace, s) }

  /** Trimming removes a border that satisfies `p` and stops at characters that do not. */
  function TrimStartIndex(p: char -> bool, s: string): (n: nat)
    ensures n <= |s|
  {
    LeadingRun(p, s)
  }

  function TrimEndIndex(p: char -> bool, s: string): (n: nat)
    ensures TrimStartIndex(p, s) <= n <= |s|
  {
    LeadingRun(p, s) + TrailingRunStart(p, s[LeadingRun(p, s)..])
  }

  lemma TrimBySplits(p: char -> bool, s: string)
    ensures var start, end := TrimStartIndex(p, s), TrimEndIndex(p, s);
      && TrimBy(p, s) == s[start..end]
      && All(p, s[..start]) && All(p, s[end..])
      && (start < end ==> !p(s[start]) && !p(s[end - 1]))
  {
    var start, end := TrimStartIndex(p, s), TrimEndIndex(p, s);
    var rest := s[start..];
    DropOfTake(s, start, end);
    assert All(p, s[end..]) by {
      forall i | 0 <= i < |s[end..]| ensures p(s[end..][i]) {
        assert s[end..][i] == rest[end - start + i];
      }
    }
    if start < end {
      assert s[end - 1] == rest[end - start - 1];
    }
  }

  lemma TrimIsBlank(p: char -> bool, s: string)
    ensures TrimBy(p, s) == [] <==> All(p, s)
  {
    TrimBySplits(p, s);
    var start, end := TrimStartIndex(p, s), TrimEndIndex(p, s);
    if start == end {
      assert s == s[..start] + s[end..];
    }
  }

  /** Trimming leaves text alone that starts and ends outside `p`. */
  lemma TrimKeeps(p: char -> bool, s: string)
    requires s == [] || (!p(s[0]) && !p(s[|s| - 1]))
    ensures TrimBy(p, s) == s
  {
  }

  lemma TrimIdempotent(s: string)
    ensures Trim(Trim(s)) == Trim(s)
  {
    TrimBySplits(IsWhitespace, s);
    TrimKeeps(IsWhitespace, Trim(s));
  }

  lemma {:induction false} TrimEndOfBlanks(s: string, blanks: string)
    requires Blank(blanks)
    ensures TrimEnd(s + blanks) == TrimEnd(s)
  {
    if blanks == [] {
      assert s + blanks == s;
    } else {
      var n := |blanks| - 1;
      var t := s + blanks;
      assert IsWhitespace(blanks[n]) && t[|t| - 1] == blanks[n];
      assert t[..|t| - 1] == s + blanks[..n];
      TrimEndOfBlanks(s, blanks[..n]);
      var m := TrailingRunStart(IsWhitespace, s + blanks[..n]);
      assert TrailingRunStart(IsWhitespace, t) == m;
      assert t[..m] == (s + blanks[..n])[..m];
    }
  }

  lemma TrimEndOfSolid(s: string)
    requires s != [] ==> !IsWhitespace(s[|s| - 1])
    ensures TrimEnd(s) == s
  {
    assert s[..|s|] == s;
  }

  lemma {:induction false} TrimStartOfBlanks(blanks: string, s: string)
    requires Blank(blanks) && (s == [] || !IsWhitespace(s[0]))
    ensures TrimStart(blanks + s) == s
  {
    var t := blanks + s;
    if blanks == [] {
      assert t == s && s[0..] == s;
    } else {
      assert IsWhitespace(blanks[0]) && t[0] == blanks[0] && t[1..] == blanks[1..] + s;
      TrimStartOfBlanks(blanks[1..], s);
      DropTwice(t, 1, LeadingRun(IsWhitespace, t));
    }
  }

  lemma TrimOfBlanks(space: string, s: string, more: string)
    requires Blank(space) && Blank(more) && s != "" && !IsWhitespace(s[0]) && !IsWhitespace(s[|s| - 1])
    ensures Trim(space + s + more) == s
  {
    assert space + s + more == space + (s + more);
    assert (s + more)[0] == s[0];
    TrimStartOfBlanks(space, s + more);
    TrimEndOfBlanks(s, more);
    TrimEndOfSolid(s);
  }

  /** The first position of a character, or the length of the text. */
  function FindChar(s: string, c: char): (n: nat)
    ensures n <= |s| && (n < |s| ==> s[n] == c) && forall i :: 0 <= i < n ==> s[i] != c
  {
    if s == [] || s[0] == c then 0 else 1 + FindChar(s[1..], c)
  }

  /** The first position at or after `from` where `needle` occurs in `s`. */
  function FindFrom(s: string, needle: string, from: nat): (r: Option<nat>)
    requires from <= |s|
    ensures r.Some? ==>
      && from <= r.value
      && Occurs(s, needle, r.value)
      && forall i :: from <= i < r.value ==> !Occurs(s, needle, i)
    ensures r.None? ==> forall i :: from <= i ==> !Occurs(s, needle, i)
    decreases |s| - from
  {
    if Occurs(s, needle, from) then Some(from)
    else if from == |s| then None
    else FindFrom(s, needle, from + 1)
  }

  function Find(s: string, needle: string): (r: Option<nat>)
    ensures r.Some? ==> Occurs(s, needle, r.value) && forall i :: 0 <= i < r.value ==> !Occurs(s, needle, i)
    ensures r.None? ==> forall i :: 0 <= i ==> !Occurs(s, needle, i)
  {
    FindFrom(s, needle, 0)
  }

  predicate Occurs(s: string, needle: string, i: nat) {
    i + |needle| <= |s| && s[i..i + |needle|] == needle
  }

  predicate Contains(s: string, needle: string) { Find(s, needle).Some? }

  /** `part` is a contiguous piece of `whole`. */
  ghost predicate IsSubstring(part: string, whole: string) {
    exists i :: 0 <= i <= |whole| - |part| && Occurs(whole, part, i)
  }

  lemma ContainsIsSubstring(s: string, needle: string)
    ensures Contains(s, needle) <==> IsSubstring(needle, s)
  {
  }

  lemma SubstringsCompose(part: string, middle: string, whole: string)
    requires IsSubstring(part, middle) && IsSubstring(middle, whole)
    ensures IsSubstring(part, whole)
  {
    var i :| 0 <= i <= |middle| - |part| && Occurs(middle, part, i);
    var j :| 0 <= j <= |whole| - |middle| && Occurs(whole, middle, j);
    SliceOfSlice(whole, j, j + |middle|, i, i + |part|);
    assert Occurs(whole, part, j + i);
  }

  lemma SliceIsSubstring(s: string, i: nat, j: nat)
    requires i <= j <= |s|
    ensures IsSubstring(s[i..j], s)
  {
    assert Occurs(s, s[i..j], i);
  }

  lemma TrimIsSubstring(p: char -> bool, s: string)
    ensures IsSubstring(TrimBy(p, s), s)
  {
    TrimBySplits(p, s);
    SliceIsSubstring(s, TrimStartIndex(p, s), TrimEndIndex(p, s));
  }

  lemma TrimmedIsSubstring(s: string)
    ensures IsSubstring(Trim(s), s)
  {
    TrimIsSubstring(IsWhitespace, s);
  }

  /** `part` can be obtained from `whole` by deleting characters. */
  ghost predicate IsSubsequence(part: string, whole: string) {
    || part == []
    || (whole != [] && part[0] == whole[0] && IsSubsequence(part[1..], whole[1..]))
    || (whole != [] && IsSubsequence(part, whole[1..]))
  }

  lemma {:induction false} SubsequenceOfSelf(s: string)
    ensures IsSubsequence(s, s)
  {
    if s != [] {
      SubsequenceOfSelf(s[1..]);
    }
  }

  /** Deleting in two adjacent pieces deletes in the whole. */
  lemma {:induction false} SubsequencesJoin(a: string, b: string, c: string, d: string)
    requires IsSubsequence(a, b) && IsSubsequence(c, d)
    ensures IsSubsequence(a + c, b + d)
    decreases |b|
  {
    if b == [] {
      assert a + c == c && b + d == d;
    } else {
      assert (b + d)[0] == b[0] && (b + d)[1..] == b[1..] + d;
      if a != [] && a[0] == b[0] && IsSubsequence(a[1..], b[1..]) {
        SubsequencesJoin(a[1..], b[1..], c, d);
        assert (a + c)[0] == a[0] && (a + c)[1..] == a[1..] + c;
      } else {
        SubsequencesJoin(a, b[1..], c, d);
      }
    }
  }

  lemma {:induction false} SubsequenceIsTransitive(a: string, b: string, c: string)
    requires IsSubsequence(a, b) && IsSubsequence(b, c)
    ensures IsSubsequence(a, c)
    decreases |c|
  {
    if a != [] && b != [] {
      if b[0] == c[0] && IsSubsequence(b[1..], c[1..]) {
        if a[0] == b[0] && IsSubsequence(a[1..], b[1..]) {
          SubsequenceIsTransitive(a[1..], b[1..], c[1..]);
        } else {
          SubsequenceIsTransitive(a, b[1..], c[1..]);
        }
      } else {
        SubsequenceIsTransitive(a, b, c[1..]);
      }
    }
  }

  /** Cutting out the piece `i..j` deletes. */
  lemma CutIsSubsequence(s: string, i: nat, j: nat)
    requires i <= j <= |s|
    ensures IsSubsequence(s[..i] + s[j..], s)
  {
    hide IsSubsequence;
    var left, cut, right := s[..i], s[i..j], s[j..];
    SubsequenceOfSelf(left);
    SubsequenceOfSelf(right);
    DroppedPrefix(cut, right);
    SubsequencesJoin(left, left, right, cut + right);
    SliceJoin(s, i, j, |s|);
    TakeDrop(s, i);
    assert s[i..|s|] == s[i..] && s[j..|s|] == right;
  }

  lemma DroppedPrefix(cut: string, rest: string)
    ensures IsSubsequence(rest, cut + rest)
  {
    SubsequenceOfSelf(rest);
    SubsequencesJoin([], cut, rest, rest);
    assert [] + rest == rest;
  }
}
