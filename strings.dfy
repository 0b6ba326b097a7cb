/** The few Ruby `String` operations the modelled code relies on. */
module Strings {

  /** `p` occurs in `s` starting at index `i`. */
  predicate OccursAt(s: string, p: string, i: int)
  {
    0 <= i && i + |p| <= |s| && s[i..i + |p|] == p
  }

  /** Ruby's `s.include?(p)`. */
  predicate Contains(s: string, p: string)
  {
    exists i | 0 <= i <= |s| :: OccursAt(s, p, i)
  }

  lemma OccursInMiddle(a: string, p: string, b: string)
    ensures OccursAt(a + p + b, p, |a|)
  {
    assert (a + p + b)[|a|..|a| + |p|] == p;
  }

  /** An occurrence inside `b` is an occurrence inside `a + b + c`, shifted by `|a|`. */
  lemma OccursShifted(a: string, b: string, c: string, p: string, i: int)
    requires OccursAt(b, p, i)
    ensures OccursAt(a + b + c, p, |a| + i)
  {
    assert (a + b + c)[|a| + i..|a| + i + |p|] == b[i..i + |p|];
  }

  /** An occurrence of `p` inside an occurrence of `part` is an occurrence in the whole. */
  lemma OccursWithin(s: string, part: string, off: int, p: string, j: int)
    requires OccursAt(s, part, off) && OccursAt(part, p, j)
    ensures OccursAt(s, p, off + j)
  {
    var w := s[off + j..off + j + |p|];
    forall t | 0 <= t < |p|
      ensures w[t] == p[t]
    {
      assert w[t] == s[off..off + |part|][j + t];
      assert p[t] == part[j..j + |p|][t];
    }
  }

  lemma OccursInSuffix(s: string, p: string, d: int, j: int)
    requires 0 <= d <= |s| && 0 <= j
    ensures OccursAt(s[d..], p, j) <==> OccursAt(s, p, d + j)
  {
    if j + |p| <= |s| - d {
      assert s[d..][j..j + |p|] == s[d + j..d + j + |p|];
    }
  }

  lemma OccursInPrefix(s: string, p: string, e: int, j: int)
    requires 0 <= e <= |s|
    ensures OccursAt(s[..e], p, j) ==> OccursAt(s, p, j)
  {
    if 0 <= j && j + |p| <= e {
      assert s[..e][j..j + |p|] == s[j..j + |p|];
    }
  }

  lemma FirstCharDiffers(s: string, p: string, i: int)
    requires p != [] && 0 <= i < |s| && s[i] != p[0]
    ensures !OccursAt(s, p, i)
  {
    if i + |p| <= |s| {
      assert s[i..i + |p|][0] == s[i];
    }
  }

  /** ASCII case folding; Ruby's `downcase` restricted to ASCII letters. */
  function LowerChar(c: char): char
  {
    if 'A' <= c <= 'Z' then (c as int + 32) as char else c
  }

  /** Ruby's `s.downcase`, on ASCII letters. */
  function Downcase(s: string): (r: string)
    ensures |r| == |s|
  {
    seq(|s|, i requires 0 <= i < |s| => LowerChar(s[i]))
  }

  lemma DowncaseAppend(a: string, b: string)
    ensures Downcase(a + b) == Downcase(a) + Downcase(b)
  {
  }

  /** Lower-casing twice is lower-casing once. */
  lemma DowncaseIdempotent(s: string)
    ensures Downcase(Downcase(s)) == Downcase(s)
  {
  }

  /** An occurrence of `p` is found by `Contains`. */
  lemma ContainsAt(s: string, p: string, i: int)
    requires OccursAt(s, p, i)
    ensures Contains(s, p)
  {
  }

  /** Occurrences in `s` past its first character are the occurrences in its tail, one place further on. */
  lemma OccursInTail(s: string, p: string)
    requires s != []
    ensures forall i :: 0 <= i ==> (OccursAt(s[1..], p, i) <==> OccursAt(s, p, i + 1))
    ensures forall i :: 1 <= i ==> (OccursAt(s, p, i) <==> OccursAt(s[1..], p, i - 1))
  {
    forall i | 0 <= i
      ensures OccursAt(s[1..], p, i) <==> OccursAt(s, p, i + 1)
    {
      OccursInSuffix(s, p, 1, i);
    }
  }

  /** A text holding `p` somewhere but not at its start holds it in its tail. */
  lemma ContainsInTail(s: string, p: string)
    requires Contains(s, p) && !OccursAt(s, p, 0)
    ensures s != [] && Contains(s[1..], p)
  {
    var j :| 0 <= j <= |s| && OccursAt(s, p, j);
    OccursInSuffix(s, p, 1, j - 1);
  }

  /** The index of the leftmost occurrence of `p` in `s`, as `s.index(p)` gives it. */
  ghost function FirstOccurrence(s: string, p: string): (k: nat)
    requires Contains(s, p)
    ensures OccursAt(s, p, k) && forall i :: 0 <= i < k ==> !OccursAt(s, p, i)
    decreases |s|
  {
    if OccursAt(s, p, 0) then 0
    else
      ContainsInTail(s, p);
      OccursInTail(s, p);
      1 + FirstOccurrence(s[1..], p)
  }

  /** When `p` does not occur before `d`, its first occurrence is that of `s[d..]`, shifted by `d`. */
  lemma FirstOccurrenceAfter(s: string, p: string, d: nat)
    requires d <= |s| && Contains(s[d..], p)
    requires forall i :: 0 <= i < d ==> !OccursAt(s, p, i)
    ensures Contains(s, p) && FirstOccurrence(s, p) == d + FirstOccurrence(s[d..], p)
  {
    var k := FirstOccurrence(s[d..], p);
    OccursInSuffix(s, p, d, k);
    ContainsAt(s, p, d + k);
    var f := FirstOccurrence(s, p);
    assert d <= f <= d + k;
    OccursInSuffix(s, p, d, f - d);
  }

  /** Ruby's `parts.join(sep)`. */
  function Join(parts: seq<string>, sep: string): string
  {
    if parts == [] then ""
    else if |parts| == 1 then parts[0]
    else parts[0] + sep + Join(parts[1..], sep)
  }

  /** Where `parts[i]` starts inside `Join(parts, sep)`. */
  function JoinOffset(parts: seq<string>, sep: string, i: nat): nat
    requires i <= |parts|
  {
    if i == 0 then 0 else JoinOffset(parts, sep, i - 1) + |parts[i - 1]| + |sep|
  }

  /** Every part occurs in the joined text at its offset, and the offsets grow with the index. */
  lemma {:induction false} JoinPlacesParts(parts: seq<string>, sep: string, i: nat)
    requires i < |parts|
    ensures OccursAt(Join(parts, sep), parts[i], JoinOffset(parts, sep, i))
  {
    if |parts| == 1 {
      assert Join(parts, sep) == parts[0] + "" + "";
      OccursInMiddle("", parts[0], "");
    } else if i == 0 {
      assert Join(parts, sep) == "" + parts[0] + (sep + Join(parts[1..], sep));
      OccursInMiddle("", parts[0], sep + Join(parts[1..], sep));
    } else {
      JoinPlacesParts(parts[1..], sep, i - 1);
      JoinOffsetShift(parts, sep, i);
      OccursShifted(parts[0] + sep, Join(parts[1..], sep), "", parts[i], JoinOffset(parts[1..], sep, i - 1));
      assert Join(parts, sep) == (parts[0] + sep) + Join(parts[1..], sep) + "";
    }
  }

  /** What occurs inside a part occurs in the joined text, shifted by the part's offset. */
  lemma OccursInPart(parts: seq<string>, sep: string, i: nat, p: string, j: int)
    requires i < |parts| && OccursAt(parts[i], p, j)
    ensures OccursAt(Join(parts, sep), p, JoinOffset(parts, sep, i) + j)
  {
    JoinPlacesParts(parts, sep, i);
    OccursWithin(Join(parts, sep), parts[i], JoinOffset(parts, sep, i), p, j);
  }

  lemma {:induction false} JoinOffsetShift(parts: seq<string>, sep: string, i: nat)
    requires 1 <= i <= |parts|
    ensures JoinOffset(parts, sep, i) == |parts[0]| + |sep| + JoinOffset(parts[1..], sep, i - 1)
  {
    if i > 1 {
      JoinOffsetShift(parts, sep, i - 1);
    }
  }

  lemma {:induction false} JoinOffsetGrows(parts: seq<string>, sep: string, i: nat, j: nat)
    requires i < j <= |parts| && |sep| > 0
    ensures JoinOffset(parts, sep, i) < JoinOffset(parts, sep, j)
  {
    if i + 1 < j {
      JoinOffsetGrows(parts, sep, i, j - 1);
    }
  }

  function DigitChar(d: nat): char
    requires d < 10
  {
    "0123456789"[d]
  }

  /** The decimal text of a natural number, as `n.to_s` gives it. */
  function NatToString(n: nat): (r: string)
    ensures |r| > 0
    decreases n
  {
    if n < 10 then [DigitChar(n)] else NatToString(n / 10) + [DigitChar(n % 10)]
  }

  /** The decimal text of an integer, as Ruby's interpolation `#{i}` gives it. */
  function IntToString(i: int): (r: string)
    ensures |r| > 0
  {
    if i < 0 then "-" + NatToString(-i) else NatToString(i)
  }
}
