/** The handful of Python string operations that the modelled code relies on:
    `strip`, ASCII `lower`, `find`, `split(sep, 1)` and single-character `replace`. */
module PyText {
  import opened Common

  /** The code points for which Python's `str.isspace` holds. */
  predicate IsSpace(c: char) {
    var n := c as int;
    || 0x09 <= n <= 0x0D
    || 0x1C <= n <= 0x20
    || n == 0x85 || n == 0xA0 || n == 0x1680
    || 0x2000 <= n <= 0x200A
    || n == 0x2028 || n == 0x2029 || n == 0x202F || n == 0x205F || n == 0x3000
  }

  function StripLeft(s: string): string {
    if s != "" && IsSpace(s[0]) then StripLeft(s[1..]) else s
  }

  function StripRight(s: string): string {
    if s != "" && IsSpace(s[|s| - 1]) then StripRight(s[..|s| - 1]) else s
  }

  function Strip(s: string): string {
    StripRight(StripLeft(s))
  }

  /** No whitespace at either end. */
  predicate Trimmed(s: string) {
    s != "" ==> !IsSpace(s[0]) && !IsSpace(s[|s| - 1])
  }

  lemma StripLeftShape(s: string) returns (i: nat)
    ensures i <= |s| && StripLeft(s) == s[i..]
    ensures StripLeft(s) != "" ==> !IsSpace(StripLeft(s)[0])
    ensures forall k :: 0 <= k < i ==> IsSpace(s[k])
  {
    if s != "" && IsSpace(s[0]) {
      i := StripLeftShape(s[1..]);
      i := i + 1;
    } else {
      i := 0;
    }
  }

  lemma StripRightShape(s: string) returns (j: nat)
    ensures j <= |s| && StripRight(s) == s[..j]
    ensures j > 0 ==> !IsSpace(s[j - 1])
    ensures forall k :: j <= k < |s| ==> IsSpace(s[k])
  {
    if s != "" && IsSpace(s[|s| - 1]) {
      j := StripRightShape(s[..|s| - 1]);
      assert s[..|s| - 1][..j] == s[..j];
    } else {
      j := |s|;
    }
  }

  /** `strip` returns a trimmed contiguous piece of its argument, with whitespace around it. */
  lemma StripShape(s: string) returns (i: nat, j: nat)
    ensures i <= j <= |s| && Strip(s) == s[i..j]
    ensures Trimmed(Strip(s))
    ensures forall k :: 0 <= k < |s| && !(i <= k < j) ==> IsSpace(s[k])
  {
    i := StripLeftShape(s);
    var k := StripRightShape(StripLeft(s));
    j := i + k;
    forall l | j <= l < |s|
      ensures IsSpace(s[l])
    {
      assert s[l] == StripLeft(s)[l - i];
    }
  }

  /** A text that begins with something else than whitespace loses only trailing whitespace. */
  lemma StripOfSolid(s: string) returns (j: nat)
    requires s != "" && !IsSpace(s[0])
    ensures 0 < j <= |s| && Strip(s) == s[..j] && Trimmed(Strip(s))
    ensures forall k :: j <= k < |s| ==> IsSpace(s[k])
  {
    var i, end := StripShape(s);
    j := end;
  }

  lemma StripOfTrimmed(s: string)
    requires Trimmed(s)
    ensures Strip(s) == s
  {
  }

  /** `lower()` on the ASCII letters; other code points are left alone. */
  function LowerChar(c: char): char {
    if 'A' <= c <= 'Z' then (c as int + 32) as char else c
  }

  function Lower(s: string): (r: string)
    ensures |r| == |s|
    ensures forall i :: 0 <= i < |s| ==> r[i] == LowerChar(s[i])
  {
    seq(|s|, i requires 0 <= i < |s| => LowerChar(s[i]))
  }

  /** `.strip().lower()`, the form in which every user name is stored. */
  function Normalize(s: string): string {
    Lower(Strip(s))
  }

  lemma NormalizeIdempotent(s: string)
    ensures Normalize(Normalize(s)) == Normalize(s)
  {
    var _, _ := StripShape(s);
    assert Trimmed(Normalize(s));
    StripOfTrimmed(Normalize(s));
    assert Lower(Lower(Strip(s))) == Lower(Strip(s));
  }

  predicate OccursAt(text: string, pat: string, i: int) {
    0 <= i <= |text| - |pat| && text[i..i + |pat|] == pat
  }

  ghost predicate Occurs(text: string, pat: string) {
    exists i :: OccursAt(text, pat, i)
  }

  /** `text.find(pat, from)`: the least index at or after `from`, if any. */
  function FindFrom(text: string, pat: string, from: nat): (r: Option<nat>)
    ensures r.Some? ==> from <= r.value && OccursAt(text, pat, r.value)
    ensures r.Some? ==> forall j :: from <= j < r.value ==> !OccursAt(text, pat, j)
    ensures r.None? ==> forall j :: from <= j ==> !OccursAt(text, pat, j)
    decreases |text| - from
  {
    if from + |pat| > |text| then None
    else if text[from..from + |pat|] == pat then Some(from)
    else FindFrom(text, pat, from + 1)
  }

  function Find(text: string, pat: string): (r: Option<nat>)
    ensures r.Some? ==> OccursAt(text, pat, r.value)
    ensures r.Some? ==> forall j :: 0 <= j < r.value ==> !OccursAt(text, pat, j)
    ensures r.None? <==> !Occurs(text, pat)
  {
    FindFrom(text, pat, 0)
  }

  /** The least occurrence is the one `find` reports. */
  lemma FindIs(text: string, pat: string, k: nat)
    requires OccursAt(text, pat, k)
    requires forall j :: 0 <= j < k ==> !OccursAt(text, pat, j)
    ensures Find(text, pat) == Some(k)
  {
    assert Occurs(text, pat);
  }

  /** `text.replace(c, rep)` for a one-character pattern. */
  function ReplaceChar(text: string, c: char, rep: string): string {
    if text == "" then ""
    else (if text[0] == c then rep else [text[0]]) + ReplaceChar(text[1..], c, rep)
  }

  lemma {:induction false} ReplaceCharAppend(a: string, b: string, c: char, rep: string)
    ensures ReplaceChar(a + b, c, rep) == ReplaceChar(a, c, rep) + ReplaceChar(b, c, rep)
  {
    if a == "" {
      assert a + b == b;
    } else {
      ReplaceCharAppend(a[1..], b, c, rep);
      assert (a + b)[0] == a[0] && (a + b)[1..] == a[1..] + b;
      ConcatAssociates(if a[0] == c then rep else [a[0]], ReplaceChar(a[1..], c, rep), ReplaceChar(b, c, rep));
    }
  }

  lemma ConcatAssociates(a: string, b: string, c: string)
    ensures a + (b + c) == (a + b) + c
  {
  }

  /** A piece of a piece is a piece. */
  lemma SliceOfSlice(text: string, from: nat, to: nat, a: nat, b: nat)
    requires from <= to <= |text| && a <= b <= to - from
    ensures text[from..to][a..b] == text[from + a..from + b]
  {
    var l, r := text[from..to][a..b], text[from + a..from + b];
    assert |l| == |r| && forall k :: 0 <= k < |l| ==> l[k] == text[from + a + k] && r[k] == text[from + a + k];
  }

  /** Texts that agree on their first n characters have the same occurrences there. */
  lemma SameStartSameOccurrences(s: string, t: string, n: nat, pat: string, j: nat)
    requires n <= |s| && n <= |t| && s[..n] == t[..n] && j + |pat| <= n
    ensures OccursAt(s, pat, j) <==> OccursAt(t, pat, j)
  {
    SliceOfSlice(s, 0, n, j, j + |pat|);
    SliceOfSlice(t, 0, n, j, j + |pat|);
  }
}
