/**
 * The prompt template: `{{name}}` placeholders, their extraction, the check that
 * every placeholder is bound, and substitution of the bound values.
 */
module Prompts {
  import opened Errors
  import opened Strings

  /** A prompt template; its text is never changed after construction. */
  datatype Prompt = Prompt(content: string)

  /** One entry of the input-variables hash, in the hash's iteration order. `value` is its `to_s`. */
  datatype Binding = Binding(key: string, value: string)

  function Keys(vars: seq<Binding>): (ks: seq<string>)
    ensures |ks| == |vars| && forall i :: 0 <= i < |vars| ==> ks[i] == vars[i].key
  {
    seq(|vars|, i requires 0 <= i < |vars| => vars[i].key)
  }

  /** A character of the regular-expression class `\w`: an ASCII letter, a digit or `_`. */
  predicate IsWordChar(c: char)
  {
    'a' <= c <= 'z' || 'A' <= c <= 'Z' || '0' <= c <= '9' || c == '_'
  }

  /** A name the pattern `\w+` matches in full. */
  predicate IsName(n: string)
  {
    |n| > 0 && forall i :: 0 <= i < |n| ==> IsWordChar(n[i])
  }

  /** The literal text `{{key}}` that stands for a variable. */
  function Placeholder(key: string): (p: string)
    ensures |p| == |key| + 4
  {
    "{{" + key + "}}"
  }

  predicate Distinct(xs: seq<string>)
  {
    forall i, j :: 0 <= i < j < |xs| ==> xs[i] != xs[j]
  }

  /** The index of the first occurrence of `x` in `xs`. */
  function FirstIndex(xs: seq<string>, x: string): (k: nat)
    requires x in xs
    ensures k < |xs| && xs[k] == x && forall j :: 0 <= j < k ==> xs[j] != x
  {
    if xs[0] == x then 0 else 1 + FirstIndex(xs[1..], x)
  }

  // ---------------------------------------------------------------------------
  // extract_variables: every `{{name}}` placeholder in the text, first occurrences only

  /** The length of the longest run of word characters at the start of `s`. */
  function WordRun(s: string): (n: nat)
    ensures n <= |s|
    ensures forall i :: 0 <= i < n ==> IsWordChar(s[i])
    ensures n < |s| ==> !IsWordChar(s[n])
  {
    if s != [] && IsWordChar(s[0]) then 1 + WordRun(s[1..]) else 0
  }

  lemma {:induction false} WordRunExact(s: string, k: nat)
    requires k <= |s| && forall i :: 0 <= i < k ==> IsWordChar(s[i])
    requires k < |s| ==> !IsWordChar(s[k])
    ensures WordRun(s) == k
  {
    if k > 0 {
      WordRunExact(s[1..], k - 1);
    }
  }

  /**
   * The length of the match of `\{\{(\w+)\}\}` that starts at the first character
   * of `s`, or 0 when there is none. `\w+` is greedy and `}` is not a word
   * character, so backtracking never finds a shorter match.
   */
  function MatchLength(s: string): (m: nat)
    ensures m == 0 || (5 <= m <= |s| && IsName(s[2..m - 2]) && s[..m] == Placeholder(s[2..m - 2]))
  {
    if |s| >= 2 && s[0] == '{' && s[1] == '{' then
      var n := WordRun(s[2..]);
      if 0 < n && n + 4 <= |s| && s[n + 2] == '}' && s[n + 3] == '}' then n + 4 else 0
    else 0
  }

  /** The captured names of `scan`, left to right, matches never overlapping. */
  function Scan(s: string): (names: seq<string>)
    ensures forall n :: n in names ==> IsName(n)
    decreases |s|
  {
    if s == [] then []
    else
      var m := MatchLength(s);
      if m > 0 then [s[2..m - 2]] + Scan(s[m..]) else Scan(s[1..])
  }

  lemma {:induction false} MatchAtPlaceholder(s: string, n: string)
    requires IsName(n) && OccursAt(s, Placeholder(n), 0)
    ensures MatchLength(s) == |n| + 4 && s[2..|n| + 2] == n
  {
    var q := Placeholder(n);
    assert s[..|q|] == q;
    assert s[2..|n| + 2] == q[2..|n| + 2] == n;
    assert s[|n| + 2] == q[|n| + 2] == '}';
    assert s[|n| + 3] == q[|n| + 3] == '}';
    WordRunExact(s[2..], |n|);
  }

  /** Inside `{{k}}` an opening brace stands only at the first two places. */
  lemma OpenBraceOnlyAtStart(k: string, t: int)
    requires IsName(k) && 0 <= t < |Placeholder(k)| && Placeholder(k)[t] == '{'
    ensures t < 2
  {
    var pk := Placeholder(k);
    forall u | 2 <= u < |pk|
      ensures pk[u] != '{'
    {
      if u < |k| + 2 {
        assert pk[u] == k[u - 2];
      }
    }
  }

  /** At an occurrence of `{{k}}` the word run after the braces is exactly `k`. */
  lemma NameAfterBraces(s: string, j: int, k: string)
    requires IsName(k) && OccursAt(s, Placeholder(k), j)
    ensures j + 2 + |k| <= |s| && WordRun(s[j + 2..]) == |k| && s[j + 2..j + 2 + |k|] == k
  {
    var pk := Placeholder(k);
    var rest := s[j + 2..];
    assert s[j..j + |pk|] == pk;
    forall t | 0 <= t < |k|
      ensures rest[t] == k[t]
    {
      assert rest[t] == s[j..j + |pk|][t + 2] == pk[t + 2];
    }
    assert rest[|k|] == s[j..j + |pk|][|k| + 2] == pk[|k| + 2] == '}';
    WordRunExact(rest, |k|);
    assert rest[..|k|] == k;
  }

  /**
   * Two placeholder occurrences never overlap unless they are the same occurrence:
   * inside `{{k}}` a `{` stands only at the first two places, and the name runs up to `}`.
   */
  lemma PlaceholdersDoNotOverlap(s: string, k: string, n: string, j: int, i: int)
    requires IsName(k) && IsName(n)
    requires j <= i < j + |Placeholder(k)|
    ensures OccursAt(s, Placeholder(k), j) && OccursAt(s, Placeholder(n), i) ==> i == j && k == n
  {
    var pk, pn := Placeholder(k), Placeholder(n);
    if OccursAt(s, pk, j) && OccursAt(s, pn, i) {
      assert s[j..j + |pk|] == pk && s[i..i + |pn|] == pn;
      assert pk[i - j] == s[i] == pn[0] == '{' by {
        assert s[j..j + |pk|][i - j] == s[i];
        assert s[i..i + |pn|][0] == s[i];
      }
      OpenBraceOnlyAtStart(k, i - j);
      assert pk[i - j + 1] == s[i + 1] == pn[1] == '{' by {
        assert s[j..j + |pk|][i - j + 1] == s[i + 1];
        assert s[i..i + |pn|][1] == s[i + 1];
      }
      OpenBraceOnlyAtStart(k, i - j + 1);
      NameAfterBraces(s, j, k);
      NameAfterBraces(s, i, n);
    }
  }

  /** Every name `scan` returns is a `\w+` name whose placeholder occurs in the text. */
  lemma {:induction false} ScanSound(s: string, n: string)
    requires n in Scan(s)
    ensures IsName(n) && Contains(s, Placeholder(n))
    decreases |s|
  {
    var m := MatchLength(s);
    if m > 0 && n == s[2..m - 2] {
      assert OccursAt(s, Placeholder(n), 0);
      ContainsAt(s, Placeholder(n), 0);
    } else {
      var d := if m > 0 then m else 1;
      assert n in Scan(s[d..]);
      ScanSound(s[d..], n);
      var i :| 0 <= i <= |s[d..]| && OccursAt(s[d..], Placeholder(n), i);
      OccursInSuffix(s, Placeholder(n), d, i);
      ContainsAt(s, Placeholder(n), d + i);
    }
  }

  /** `scan` misses no placeholder: non-overlapping scanning cannot skip one. */
  lemma {:induction false} ScanComplete(s: string, n: string, i: int)
    requires IsName(n) && OccursAt(s, Placeholder(n), i)
    ensures n in Scan(s)
    decreases |s|
  {
    var m := MatchLength(s);
    if i == 0 {
      MatchAtPlaceholder(s, n);
    } else if m > 0 {
      var k := s[2..m - 2];
      assert OccursAt(s, Placeholder(k), 0);
      if i < m {
        PlaceholdersDoNotOverlap(s, k, n, 0, i);
      }
      assert s[m..][i - m..i - m + |Placeholder(n)|] == s[i..i + |Placeholder(n)|];
      ScanComplete(s[m..], n, i - m);
    } else {
      assert s[1..][i - 1..i - 1 + |Placeholder(n)|] == s[i..i + |Placeholder(n)|];
      ScanComplete(s[1..], n, i - 1);
    }
  }

  lemma ScanFindsExactlyPlaceholders(s: string)
    ensures forall n :: n in Scan(s) <==> IsName(n) && Contains(s, Placeholder(n))
  {
    forall n | IsName(n) && Contains(s, Placeholder(n))
      ensures n in Scan(s)
    {
      var i :| 0 <= i <= |s| && OccursAt(s, Placeholder(n), i);
      ScanComplete(s, n, i);
    }
    forall n | n in Scan(s)
      ensures IsName(n) && Contains(s, Placeholder(n))
    {
      ScanSound(s, n);
    }
  }

  /** No placeholder but the one matched at the start of `s` begins inside that match. */
  lemma NoOtherPlaceholderInMatch(s: string, z: string)
    requires IsName(z) && MatchLength(s) > 0 && s[2..MatchLength(s) - 2] != z
    ensures forall i :: 0 <= i < MatchLength(s) ==> !OccursAt(s, Placeholder(z), i)
  {
    var m := MatchLength(s);
    var k := s[2..m - 2];
    assert OccursAt(s, Placeholder(k), 0);
    forall i | 0 <= i < m
      ensures !OccursAt(s, Placeholder(z), i)
    {
      PlaceholdersDoNotOverlap(s, k, z, 0, i);
    }
  }

  /**
   * `scan` meets names in text order: a name it captures first has its first
   * placeholder earlier in the text.
   */
  lemma {:induction false} ScanInTextOrder(s: string, x: string, y: string)
    requires x in Scan(s) && y in Scan(s)
    requires FirstIndex(Scan(s), x) < FirstIndex(Scan(s), y)
    ensures Contains(s, Placeholder(x)) && Contains(s, Placeholder(y))
    ensures FirstOccurrence(s, Placeholder(x)) < FirstOccurrence(s, Placeholder(y))
    decreases |s|
  {
    ScanSound(s, x);
    ScanSound(s, y);
    var m := MatchLength(s);
    if m > 0 {
      var k := s[2..m - 2];
      assert Scan(s) == [k] + Scan(s[m..]);
      if x == k {
        assert OccursAt(s, Placeholder(x), 0);
        if OccursAt(s, Placeholder(y), 0) {
          MatchAtPlaceholder(s, y);
        }
      } else {
        FirstIndexPastHead(Scan(s), x);
        FirstIndexPastHead(Scan(s), y);
        ScanInTextOrder(s[m..], x, y);
        NoOtherPlaceholderInMatch(s, x);
        NoOtherPlaceholderInMatch(s, y);
        FirstOccurrenceAfter(s, Placeholder(x), m);
        FirstOccurrenceAfter(s, Placeholder(y), m);
      }
    } else {
      assert Scan(s) == Scan(s[1..]);
      ScanInTextOrder(s[1..], x, y);
      if OccursAt(s, Placeholder(x), 0) {
        MatchAtPlaceholder(s, x);
      }
      if OccursAt(s, Placeholder(y), 0) {
        MatchAtPlaceholder(s, y);
      }
      FirstOccurrenceAfter(s, Placeholder(x), 1);
      FirstOccurrenceAfter(s, Placeholder(y), 1);
    }
  }

  /** Ruby's `Array#uniq`: the first occurrence of each element, in order. */
  function Uniq(xs: seq<string>): (r: seq<string>)
    ensures forall x :: x in r <==> x in xs
    ensures Distinct(r)
  {
    if xs == [] then []
    else
      var r := Uniq(xs[..|xs| - 1]);
      if xs[|xs| - 1] in r then r else r + [xs[|xs| - 1]]
  }

  lemma {:induction false} FirstIndexInPrefix(xs: seq<string>, k: nat, x: string)
    requires k <= |xs| && x in xs[..k]
    ensures FirstIndex(xs, x) == FirstIndex(xs[..k], x)
  {
    var a, b := FirstIndex(xs, x), FirstIndex(xs[..k], x);
    assert xs[b] == x;
    assert a <= b;
    assert xs[..k][a] == x;
  }

  /** `uniq` lists the elements in the order of their first occurrence. */
  lemma {:induction false} UniqKeepsFirstOccurrenceOrder(xs: seq<string>)
    ensures forall i, j :: 0 <= i < j < |Uniq(xs)| ==> FirstIndex(xs, Uniq(xs)[i]) < FirstIndex(xs, Uniq(xs)[j])
  {
    if xs != [] {
      var ys := xs[..|xs| - 1];
      var x := xs[|xs| - 1];
      var r := Uniq(ys);
      UniqKeepsFirstOccurrenceOrder(ys);
      forall y | y in r
        ensures FirstIndex(xs, y) == FirstIndex(ys, y) < |ys|
      {
        FirstIndexInPrefix(xs, |xs| - 1, y);
      }
      if x !in r {
        assert x !in ys;
        assert FirstIndex(xs, x) == |xs| - 1;
        assert Uniq(xs) == r + [x];
      }
    }
  }

  /**
   * `extract_variables`: the distinct placeholder names, exactly the `\w+` names
   * whose `{{name}}` occurs in the text.
   */
  function ExtractVariables(p: Prompt): (names: seq<string>)
    ensures Distinct(names)
    ensures forall n :: n in names <==> IsName(n) && Contains(p.content, Placeholder(n))
  {
    ScanFindsExactlyPlaceholders(p.content);
    Uniq(Scan(p.content))
  }

  /**
   * The variables are listed in the order of their first placeholder in the text:
   * one comes before another exactly when its `{{name}}` first occurs earlier.
   */
  lemma ExtractVariablesInFirstOccurrenceOrder(p: Prompt)
    ensures var names := ExtractVariables(p);
      forall i, j :: 0 <= i < |names| && 0 <= j < |names| ==>
        (i < j <==> FirstOccurrence(p.content, Placeholder(names[i])) < FirstOccurrence(p.content, Placeholder(names[j])))
  {
    var names := ExtractVariables(p);
    forall i, j | 0 <= i < j < |names|
      ensures FirstOccurrence(p.content, Placeholder(names[i])) < FirstOccurrence(p.content, Placeholder(names[j]))
    {
      ExtractedPairInTextOrder(p.content, i, j);
    }
  }

  /** Of two extracted names, the earlier one's placeholder first occurs earlier. */
  lemma ExtractedPairInTextOrder(content: string, i: nat, j: nat)
    requires i < j < |Uniq(Scan(content))|
    ensures var names := Uniq(Scan(content));
      Contains(content, Placeholder(names[i])) && Contains(content, Placeholder(names[j]))
      && FirstOccurrence(content, Placeholder(names[i])) < FirstOccurrence(content, Placeholder(names[j]))
  {
    var names := Uniq(Scan(content));
    UniqKeepsFirstOccurrenceOrder(Scan(content));
    assert names[i] in Scan(content) && names[j] in Scan(content);
    ScanInTextOrder(content, names[i], names[j]);
  }

  // ---------------------------------------------------------------------------
  // validate_variables!: the extracted names that no input key supplies

  /** Ruby's `names - keys`: the names that are not keys, in their order. */
  function Missing(names: seq<string>, keys: seq<string>): (m: seq<string>)
    ensures forall x :: x in m <==> x in names && x !in keys
  {
    if names == [] then []
    else (if names[0] in keys then [] else [names[0]]) + Missing(names[1..], keys)
  }

  /** Past a different first element, the first index is one more than in the tail. */
  lemma FirstIndexPastHead(xs: seq<string>, y: string)
    requires xs != [] && y in xs[1..] && y != xs[0]
    ensures FirstIndex(xs, y) == 1 + FirstIndex(xs[1..], y)
  {
  }

  /** When the first name is a key, the missing names are those of the tail, one index further on. */
  lemma MissingAfterKey(names: seq<string>, keys: seq<string>, i: nat)
    requires names != [] && names[0] !in names[1..] && names[0] in keys
    requires i < |Missing(names, keys)|
    ensures i < |Missing(names[1..], keys)| && Missing(names, keys)[i] == Missing(names[1..], keys)[i]
    ensures FirstIndex(names, Missing(names, keys)[i]) == 1 + FirstIndex(names[1..], Missing(names, keys)[i])
  {
    var m := Missing(names, keys);
    assert m == Missing(names[1..], keys);
    assert m[i] in names[1..];
    FirstIndexPastHead(names, m[i]);
  }

  /** When the first name is missing, it leads the missing names, ahead of those of the tail. */
  lemma MissingAfterName(names: seq<string>, keys: seq<string>, i: nat)
    requires names != [] && names[0] !in names[1..] && names[0] !in keys
    requires 0 < i < |Missing(names, keys)|
    ensures i - 1 < |Missing(names[1..], keys)| && Missing(names, keys)[i] == Missing(names[1..], keys)[i - 1]
    ensures FirstIndex(names, Missing(names, keys)[i]) == 1 + FirstIndex(names[1..], Missing(names, keys)[i])
    ensures Missing(names, keys)[0] == names[0] && FirstIndex(names, names[0]) == 0
  {
    var m := Missing(names, keys);
    assert m == [names[0]] + Missing(names[1..], keys);
    assert m[i] in names[1..];
    FirstIndexPastHead(names, m[i]);
  }

  /** The missing names keep the order of the extracted names. */
  lemma {:induction false} MissingKeepsOrder(names: seq<string>, keys: seq<string>)
    requires Distinct(names)
    ensures forall i, j :: 0 <= i < j < |Missing(names, keys)| ==>
      FirstIndex(names, Missing(names, keys)[i]) < FirstIndex(names, Missing(names, keys)[j])
  {
    if names != [] {
      assert names[0] !in names[1..];
      MissingKeepsOrder(names[1..], keys);
      forall i, j | 0 <= i < j < |Missing(names, keys)|
        ensures FirstIndex(names, Missing(names, keys)[i]) < FirstIndex(names, Missing(names, keys)[j])
      {
        if names[0] in keys {
          MissingAfterKey(names, keys, i);
          MissingAfterKey(names, keys, j);
        } else {
          MissingAfterName(names, keys, j);
          if i > 0 {
            MissingAfterName(names, keys, i);
          }
        }
      }
    }
  }

  const MissingVariablesPrefix := "Missing required variables: "

  /**
   * `validate_variables!`: raises exactly when some extracted name is not a key,
   * with a message listing the missing names joined by ", ".
   */
  function ValidateVariables(p: Prompt, vars: seq<Binding>): (r: Outcome<()>)
    ensures r.Raised? <==> exists n :: n in ExtractVariables(p) && n !in Keys(vars)
    ensures r.Raised? ==> r.message == MissingVariablesPrefix + Join(Missing(ExtractVariables(p), Keys(vars)), ", ")
  {
    var missing := Missing(ExtractVariables(p), Keys(vars));
    if missing != [] then
      assert missing[0] in ExtractVariables(p) && missing[0] !in Keys(vars);
      Raised(MissingVariablesPrefix + Join(missing, ", ")) else Normal(())
  }

  // ---------------------------------------------------------------------------
  // process_content: a copy of the content, then one gsub! per binding

  /** `s.gsub(pat, v)` for a literal `pat`: leftmost, non-overlapping, no re-scan of `v`. */
  function ReplaceAll(s: string, pat: string, v: string): string
    requires pat != []
    decreases |s|
  {
    if |s| < |pat| then s
    else if s[..|pat|] == pat then v + ReplaceAll(s[|pat|..], pat, v)
    else [s[0]] + ReplaceAll(s[1..], pat, v)
  }

  /**
   * `content` after the `gsub!` of each binding in turn, each on the previous result.
   * No bindings, or bindings that each map a name to its own placeholder, leave it as it is.
   */
  function Substituted(content: string, vars: seq<Binding>): (r: string)
    ensures vars == [] ==> r == content
    ensures (forall i :: 0 <= i < |vars| ==> vars[i].value == Placeholder(vars[i].key)) ==> r == content
    decreases |vars|
  {
    if vars == [] then content
    else
      var last := vars[|vars| - 1];
      var before := Substituted(content, vars[..|vars| - 1]);
      ReplaceAllBySelf(before, Placeholder(last.key));
      ReplaceAll(before, Placeholder(last.key), last.value)
  }

  /** `process_content`: works on a copy of the content, one binding at a time in hash order. */
  method ProcessContent(p: Prompt, vars: seq<Binding>) returns (processed: string)
    ensures processed == Substituted(p.content, vars)
    ensures vars == [] ==> processed == p.content
  {
    processed := p.content;
    var i := 0;
    while i < |vars|
      invariant 0 <= i <= |vars|
      invariant processed == Substituted(p.content, vars[..i])
    {
      assert vars[..i + 1][..i] == vars[..i];
      processed := ReplaceAll(processed, Placeholder(vars[i].key), vars[i].value);
      i := i + 1;
    }
    assert vars[..|vars|] == vars;
  }

  lemma {:induction false} ReplaceAllAbsent(s: string, pat: string, v: string)
    requires pat != [] && !Contains(s, pat)
    ensures ReplaceAll(s, pat, v) == s
    decreases |s|
  {
    if |s| >= |pat| {
      assert !OccursAt(s, pat, 0);
      forall i | 0 <= i <= |s[1..]|
        ensures !OccursAt(s[1..], pat, i)
      {
        assert OccursAt(s[1..], pat, i) == OccursAt(s, pat, i + 1) by {
          if i + |pat| <= |s[1..]| {
            assert s[1..][i..i + |pat|] == s[i + 1..i + 1 + |pat|];
          }
        }
      }
      ReplaceAllAbsent(s[1..], pat, v);
    }
  }

  /** Replacing a pattern by itself gives back the text. */
  lemma {:induction false} ReplaceAllBySelf(s: string, pat: string)
    requires pat != []
    ensures ReplaceAll(s, pat, pat) == s
    decreases |s|
  {
    if |s| >= |pat| {
      if s[..|pat|] == pat {
        ReplaceAllBySelf(s[|pat|..], pat);
        assert s == s[..|pat|] + s[|pat|..];
      } else {
        ReplaceAllBySelf(s[1..], pat);
        assert s == [s[0]] + s[1..];
      }
    }
  }

  /** The text between the occurrences that `ReplaceAll` replaces. */
  function Pieces(s: string, pat: string): (ps: seq<string>)
    requires pat != []
    ensures |ps| >= 1
    decreases |s|
  {
    if |s| < |pat| then [s]
    else if s[..|pat|] == pat then [""] + Pieces(s[|pat|..], pat)
    else
      var rest := Pieces(s[1..], pat);
      [[s[0]] + rest[0]] + rest[1..]
  }

  lemma JoinExtendsHead(x: string, ps: seq<string>, sep: string)
    requires |ps| >= 1
    ensures Join([x + ps[0]] + ps[1..], sep) == x + Join(ps, sep)
  {
    if |ps| > 1 {
      assert ([x + ps[0]] + ps[1..])[1..] == ps[1..];
    }
  }

  lemma JoinEmptyHead(ps: seq<string>, sep: string)
    requires |ps| >= 1
    ensures Join([""] + ps, sep) == sep + Join(ps, sep)
  {
    assert ([""] + ps)[1..] == ps;
  }

  lemma JoinStartsWithHead(ps: seq<string>, sep: string)
    requires |ps| >= 1
    ensures |ps[0]| <= |Join(ps, sep)| && Join(ps, sep)[..|ps[0]|] == ps[0]
  {
  }

  /** `gsub` puts the replacement between the pieces of the text around the pattern. */
  lemma {:induction false} ReplaceAllJoinsPieces(s: string, pat: string, v: string)
    requires pat != []
    ensures ReplaceAll(s, pat, v) == Join(Pieces(s, pat), v)
    decreases |s|
  {
    if |s| >= |pat| {
      if s[..|pat|] == pat {
        ReplaceAllJoinsPieces(s[|pat|..], pat, v);
        JoinEmptyHead(Pieces(s[|pat|..], pat), v);
      } else {
        ReplaceAllJoinsPieces(s[1..], pat, v);
        JoinExtendsHead([s[0]], Pieces(s[1..], pat), v);
      }
    }
  }

  /**
   * A piece that starts the text after its first character, and holds no pattern,
   * still holds none with that character put back, when the text does not start
   * with the pattern.
   */
  lemma ExtendedPieceFree(s: string, pat: string, piece: string)
    requires pat != [] && |s| >= |pat| && s[..|pat|] != pat
    requires |piece| <= |s| - 1 && s[1..][..|piece|] == piece
    requires !Contains(piece, pat)
    ensures !Contains([s[0]] + piece, pat)
  {
    var head := [s[0]] + piece;
    assert s[..|head|] == head;
    forall t | 0 <= t <= |head|
      ensures !OccursAt(head, pat, t)
    {
      if t == 0 {
        if |pat| <= |head| {
          assert head[..|pat|] == s[..|pat|];
        }
      } else if t + |pat| <= |head| {
        assert head[t..t + |pat|] == piece[t - 1..t - 1 + |pat|];
        assert !OccursAt(piece, pat, t - 1);
      }
    }
  }

  /**
   * The pieces are a split of the text at the replaced occurrences: joined with the
   * pattern they give the text back, and none of them holds the pattern.
   */
  lemma {:induction false} PiecesSplitText(s: string, pat: string)
    requires pat != []
    ensures Join(Pieces(s, pat), pat) == s
    ensures forall k :: 0 <= k < |Pieces(s, pat)| ==> !Contains(Pieces(s, pat)[k], pat)
    decreases |s|
  {
    ReplaceAllJoinsPieces(s, pat, pat);
    ReplaceAllBySelf(s, pat);
    var ps := Pieces(s, pat);
    if |s| < |pat| {
      assert forall i :: !OccursAt(s, pat, i);
    } else if s[..|pat|] == pat {
      PiecesSplitText(s[|pat|..], pat);
      assert !OccursAt("", pat, 0);
      assert ps[1..] == Pieces(s[|pat|..], pat);
    } else {
      var rest := Pieces(s[1..], pat);
      PiecesSplitText(s[1..], pat);
      JoinStartsWithHead(rest, pat);
      ExtendedPieceFree(s, pat, rest[0]);
      var head := [s[0]] + rest[0];
      assert ps == [head] + rest[1..];
    }
  }

  /** Dropping `d` characters from the front of `a` keeps the seam free of straddling occurrences. */
  lemma NoStraddleAfterDrop(a: string, b: string, pat: string, d: nat)
    requires d <= |a|
    requires forall j :: 0 <= j < |a| < j + |pat| ==> !OccursAt(a + b, pat, j)
    ensures forall j :: 0 <= j < |a[d..]| < j + |pat| ==> !OccursAt(a[d..] + b, pat, j)
  {
    var s := a + b;
    assert s[d..] == a[d..] + b;
    forall j | 0 <= j < |a[d..]| < j + |pat|
      ensures !OccursAt(a[d..] + b, pat, j)
    {
      OccursInSuffix(s, pat, d, j);
    }
  }

  /** The first step of `gsub` on `a + b` is the first step on `a` when nothing straddles the seam. */
  lemma ReplaceAllFirstStep(a: string, b: string, pat: string, v: string) returns (d: nat, head: string)
    requires pat != [] && a != [] && |a + b| >= |pat|
    requires forall j :: 0 <= j < |a| < j + |pat| ==> !OccursAt(a + b, pat, j)
    ensures 0 < d <= |a| && (a + b)[d..] == a[d..] + b
    ensures ReplaceAll(a + b, pat, v) == head + ReplaceAll(a[d..] + b, pat, v)
    ensures ReplaceAll(a, pat, v) == head + ReplaceAll(a[d..], pat, v)
  {
    var s := a + b;
    if s[..|pat|] == pat {
      assert OccursAt(s, pat, 0);
      d, head := |pat|, v;
      assert a[..|pat|] == s[..|pat|];
    } else {
      d, head := 1, [a[0]];
      if |a| >= |pat| {
        assert a[..|pat|] == s[..|pat|];
      }
    }
    assert s[d..] == a[d..] + b;
  }

  /** Two texts that start alike and go on alike are alike. */
  lemma SharedHead(whole: string, left: string, right: string, head: string, wholeRest: string, leftRest: string)
    requires whole == head + wholeRest && left == head + leftRest && wholeRest == leftRest + right
    ensures whole == left + right
  {
    assert head + (leftRest + right) == (head + leftRest) + right;
  }

  /** Text shorter than the pattern is left alone, and so are its parts. */
  lemma ReplaceAllShort(a: string, b: string, pat: string, v: string)
    requires pat != [] && |a + b| < |pat|
    ensures ReplaceAll(a + b, pat, v) == ReplaceAll(a, pat, v) + ReplaceAll(b, pat, v)
  {
    assert ReplaceAll(a, pat, v) == a;
    assert ReplaceAll(b, pat, v) == b;
  }

  /**
   * `gsub` on `a + b` is `gsub` on each part when no occurrence of the pattern
   * straddles the boundary between them.
   */
  lemma {:induction false} ReplaceAllSplit(a: string, b: string, pat: string, v: string)
    requires pat != []
    requires forall j :: 0 <= j < |a| < j + |pat| ==> !OccursAt(a + b, pat, j)
    ensures ReplaceAll(a + b, pat, v) == ReplaceAll(a, pat, v) + ReplaceAll(b, pat, v)
    decreases |a|
  {
    if a == [] {
      assert a + b == b;
    } else if |a + b| < |pat| {
      ReplaceAllShort(a, b, pat, v);
    } else {
      var d, head := ReplaceAllFirstStep(a, b, pat, v);
      NoStraddleAfterDrop(a, b, pat, d);
      ReplaceAllSplit(a[d..], b, pat, v);
      SharedHead(ReplaceAll(a + b, pat, v), ReplaceAll(a, pat, v), ReplaceAll(b, pat, v), head,
                 ReplaceAll(a[d..] + b, pat, v), ReplaceAll(a[d..], pat, v));
    }
  }

  /** An occurrence of `{{n}}` excludes every overlapping occurrence of another `{{k}}`. */
  lemma OtherPlaceholderDoesNotOverlap(s: string, k: string, n: string, i: int)
    requires IsName(k) && IsName(n) && k != n && OccursAt(s, Placeholder(n), i)
    ensures forall j :: j <= i < j + |Placeholder(k)| ==> !OccursAt(s, Placeholder(k), j)
    ensures forall j :: i <= j < i + |Placeholder(n)| ==> !OccursAt(s, Placeholder(k), j)
  {
    forall j | j <= i < j + |Placeholder(k)|
      ensures !OccursAt(s, Placeholder(k), j)
    {
      PlaceholdersDoNotOverlap(s, k, n, j, i);
    }
    forall j | i <= j < i + |Placeholder(n)|
      ensures !OccursAt(s, Placeholder(k), j)
    {
      PlaceholdersDoNotOverlap(s, n, k, i, j);
    }
  }

  /**
   * Replacing `{{k}}` keeps every occurrence of another placeholder `{{n}}`
   * (both names of word characters): the two can never overlap.
   */
  lemma ReplaceAllKeepsOtherPlaceholder(s: string, k: string, v: string, n: string, i: int)
    requires IsName(k) && IsName(n) && k != n
    requires OccursAt(s, Placeholder(n), i)
    ensures Contains(ReplaceAll(s, Placeholder(k), v), Placeholder(n))
  {
    var pat, q := Placeholder(k), Placeholder(n);
    OtherPlaceholderDoesNotOverlap(s, k, n, i);
    var a, rest := s[..i], s[i..];
    var b := rest[|q|..];
    assert s == a + rest;
    assert rest == q + b by {
      assert rest[..|q|] == s[i..i + |q|];
    }
    ReplaceAllSplit(a, rest, pat, v);
    forall j | 0 <= j < |q| < j + |pat|
      ensures !OccursAt(q + b, pat, j)
    {
      OccursInSuffix(s, pat, i, j);
    }
    ReplaceAllSplit(q, b, pat, v);
    forall j | 0 <= j <= |q|
      ensures !OccursAt(q, pat, j)
    {
      OccursInPrefix(rest, pat, |q|, j);
      OccursInSuffix(s, pat, i, j);
    }
    ReplaceAllAbsent(q, pat, v);
    var r := ReplaceAll(s, pat, v);
    assert r == ReplaceAll(a, pat, v) + q + ReplaceAll(b, pat, v);
    OccursInMiddle(ReplaceAll(a, pat, v), q, ReplaceAll(b, pat, v));
    assert OccursAt(r, q, |ReplaceAll(a, pat, v)|);
  }

  /**
   * A placeholder whose name is not a key survives substitution, as long as every
   * key is itself a `\w+` name (a key holding braces could swallow it).
   */
  lemma {:induction false} UnboundPlaceholdersSurvive(content: string, vars: seq<Binding>, n: string)
    requires forall b :: b in vars ==> IsName(b.key)
    requires IsName(n) && n !in Keys(vars) && Contains(content, Placeholder(n))
    ensures Contains(Substituted(content, vars), Placeholder(n))
    decreases |vars|
  {
    if vars != [] {
      var init, last := vars[..|vars| - 1], vars[|vars| - 1];
      assert forall b :: b in init ==> b in vars;
      assert n != last.key;
      assert n !in Keys(init) by {
        assert forall t :: 0 <= t < |init| ==> Keys(init)[t] == Keys(vars)[t];
      }
      UnboundPlaceholdersSurvive(content, init, n);
      var s := Substituted(content, init);
      var i :| 0 <= i <= |s| && OccursAt(s, Placeholder(n), i);
      ReplaceAllKeepsOtherPlaceholder(s, last.key, last.value, n, i);
    }
  }

  /** Text without `{{` has no variables. */
  lemma NoOpeningBracesNoVariables(p: Prompt)
    requires !Contains(p.content, "{{")
    ensures ExtractVariables(p) == []
  {
    var names := ExtractVariables(p);
    if names != [] {
      var i :| 0 <= i <= |p.content| && OccursAt(p.content, Placeholder(names[0]), i);
      assert p.content[i..i + 2] == Placeholder(names[0])[..2] == "{{";
      assert OccursAt(p.content, "{{", i);
      assert false;
    }
  }

  lemma {:induction false} ScanSkipsText(s: string, k: nat)
    requires k <= |s| && forall t :: 0 <= t < k ==> s[t] != '{'
    ensures Scan(s) == Scan(s[k..])
  {
    if k > 0 {
      assert MatchLength(s) == 0;
      ScanSkipsText(s[1..], k - 1);
      assert s[1..][k - 1..] == s[k..];
    }
  }

  lemma ScanPlaceholderAtStart(s: string, n: string)
    requires IsName(n) && OccursAt(s, Placeholder(n), 0)
    ensures Scan(s) == [n] + Scan(s[|n| + 4..])
  {
    MatchAtPlaceholder(s, n);
  }

  lemma UniqOfDistinct(xs: seq<string>)
    requires Distinct(xs)
    ensures Uniq(xs) == xs
  {
    if xs != [] {
      var init := xs[..|xs| - 1];
      UniqOfDistinct(init);
      assert xs == init + [xs[|xs| - 1]];
    }
  }

  predicate NoOpeningBrace(s: string)
  {
    forall t :: 0 <= t < |s| ==> s[t] != '{'
  }

  lemma ScanPlainThenPlaceholder(a: string, n: string, rest: string)
    requires NoOpeningBrace(a) && IsName(n)
    ensures Scan(a + Placeholder(n) + rest) == [n] + Scan(rest)
  {
    var p := Placeholder(n);
    var s := a + p + rest;
    forall t | 0 <= t < |a|
      ensures s[t] != '{'
    {
      assert s[t] == a[t];
    }
    ScanSkipsText(s, |a|);
    assert OccursAt(s, p, |a|) by {
      assert s[|a|..|a| + |p|] == p;
    }
    OccursInSuffix(s, p, |a|, 0);
    ScanPlaceholderAtStart(s[|a|..], n);
    assert s[|a|..][|n| + 4..] == rest by {
      assert s[|a|..][|n| + 4..] == s[|a| + |p|..];
    }
  }

  lemma ScanPlain(a: string)
    requires NoOpeningBrace(a)
    ensures Scan(a) == []
  {
    ScanSkipsText(a, |a|);
  }

  /** The documented example: "Hello {{name}}, how are you {{mood}}?" yields name, then mood. */
  lemma ExtractVariablesExample()
    ensures ExtractVariables(Prompt("Hello " + Placeholder("name") + ", how are you " + Placeholder("mood") + "?"))
            == ["name", "mood"]
  {
    var a, b, c := "Hello ", ", how are you ", "?";
    assert NoOpeningBrace(a) && NoOpeningBrace(b) && NoOpeningBrace(c);
    assert IsName("name") && IsName("mood");
    ScanTwoPlaceholders(a, "name", b, "mood", c);
    UniqOfDistinct(["name", "mood"]);
  }

  /** Regrouping a concatenation of four texts. */
  lemma Regroup(w: string, x: string, y: string, z: string)
    ensures w + x + y + z == w + (x + y + z)
  {
  }

  /** Two placeholders between brace-free texts are scanned in order. */
  lemma ScanTwoPlaceholders(a: string, n1: string, b: string, n2: string, c: string)
    requires NoOpeningBrace(a) && NoOpeningBrace(b) && NoOpeningBrace(c) && IsName(n1) && IsName(n2)
    ensures Scan(a + Placeholder(n1) + b + Placeholder(n2) + c) == [n1, n2]
  {
    var rest := b + Placeholder(n2) + c;
    ScanPlainThenPlaceholder(b, n2, c);
    ScanPlain(c);
    assert Scan(rest) == [n2];
    ScanPlainThenPlaceholder(a, n1, rest);
    Regroup(a + Placeholder(n1), b, Placeholder(n2), c);
  }

  /** `gsub` leaves a prefix alone when no occurrence of the pattern starts inside it. */
  lemma {:induction false} ReplaceAllSkipsText(s: string, pat: string, v: string, k: nat)
    requires pat != [] && k <= |s| && forall t :: 0 <= t < k ==> !OccursAt(s, pat, t)
    ensures ReplaceAll(s, pat, v) == s[..k] + ReplaceAll(s[k..], pat, v)
  {
    if k > 0 {
      assert !OccursAt(s, pat, 0);
      if |s| < |pat| {
        assert s == s[..k] + s[k..];
      } else {
        assert s[..|pat|] != pat;
        forall t | 0 <= t < k - 1
          ensures !OccursAt(s[1..], pat, t)
        {
          OccursInSuffix(s, pat, 1, t);
        }
        assert ReplaceAll(s, pat, v) == [s[0]] + ReplaceAll(s[1..], pat, v);
        ReplaceAllSkipsText(s[1..], pat, v, k - 1);
        assert s[1..][k - 1..] == s[k..];
        assert s[..k] == [s[0]] + s[1..][..k - 1];
        SharedHead(ReplaceAll(s, pat, v), s[..k], ReplaceAll(s[k..], pat, v), [s[0]],
                   ReplaceAll(s[1..], pat, v), s[1..][..k - 1]);
      }
    }
  }

  /** An occurrence at the start is replaced first. */
  lemma ReplaceAllAtStart(s: string, pat: string, v: string)
    requires pat != [] && OccursAt(s, pat, 0)
    ensures ReplaceAll(s, pat, v) == v + ReplaceAll(s[|pat|..], pat, v)
  {
    assert s[..|pat|] == s[0..|pat|];
  }

  /** One binding whose placeholder occurs once, between brace-free texts, is substituted in place. */
  lemma SubstituteOnce(a: string, n: string, v: string, c: string)
    requires NoOpeningBrace(a) && NoOpeningBrace(c) && IsName(n)
    ensures Substituted(a + Placeholder(n) + c, [Binding(n, v)]) == a + v + c
  {
    var s, pat := a + Placeholder(n) + c, Placeholder(n);
    assert [Binding(n, v)][..0] == [];
    assert Substituted(s, [Binding(n, v)]) == ReplaceAll(s, pat, v);
    assert pat[0] == '{';
    forall t | 0 <= t < |a|
      ensures !OccursAt(s, pat, t)
    {
      assert s[t] == a[t];
      FirstCharDiffers(s, pat, t);
    }
    ReplaceAllSkipsText(s, pat, v, |a|);
    assert s[..|a|] == a && s[|a|..] == pat + c;
    ReplaceAllAtStart(pat + c, pat, v);
    assert (pat + c)[|pat|..] == c;
    forall i | 0 <= i <= |c|
      ensures !OccursAt(c, pat, i)
    {
      if i < |c| {
        FirstCharDiffers(c, pat, i);
      }
    }
    ReplaceAllAbsent(c, pat, v);
  }

  lemma ProcessContentExample()
    ensures Substituted("Hello {{name}}!", [Binding("name", "World")]) == "Hello World!"
  {
    assert IsName("name");
    SubstituteOnce("Hello ", "name", "World", "!");
    assert "Hello {{name}}!" == "Hello " + Placeholder("name") + "!";
    assert "Hello " + "World" + "!" == "Hello World!";
  }

  /** Two bindings: the second key's `gsub` runs on the text the first one produced. */
  lemma SubstitutedTwice(content: string, first: Binding, second: Binding)
    ensures Substituted(content, [first, second])
            == ReplaceAll(ReplaceAll(content, Placeholder(first.key), first.value), Placeholder(second.key), second.value)
  {
    var vars := [first, second];
    assert vars[..1] == [first] && [first][..0] == [];
    assert Substituted(content, [first]) == ReplaceAll(content, Placeholder(first.key), first.value);
    assert Substituted(content, vars) == ReplaceAll(Substituted(content, [first]), Placeholder(second.key), second.value);
  }

  /**
   * Each `gsub!` runs on the text the previous one produced: a value inserted for
   * one key is rewritten by a later key, so the order of the bindings matters.
   */
  lemma LaterBindingRewritesInsertedValue()
    ensures Substituted("{{a}}", [Binding("a", "{{b}}"), Binding("b", "X")]) == "X"
    ensures Substituted("{{a}}", [Binding("b", "X"), Binding("a", "{{b}}")]) == "{{b}}"
  {
    var pa, pb := Placeholder("a"), Placeholder("b");
    assert pa == "{{a}}" && pb == "{{b}}";
    ReplaceAllAtStart(pa, pa, pb);
    ReplaceAllAtStart(pb, pb, "X");
    assert !OccursAt(pa, pb, 0);
    assert forall t :: 0 <= t < 1 ==> !OccursAt(pa, pb, t);
    ReplaceAllSkipsText(pa, pb, "X", 1);
    assert pa[1..] == "{a}}";
    assert ReplaceAll("{a}}", pb, "X") == "{a}}";
    assert ReplaceAll(pa, pb, "X") == pa;
    SubstitutedTwice(pa, Binding("a", pb), Binding("b", "X"));
    SubstitutedTwice(pa, Binding("b", "X"), Binding("a", pb));
  }

  /**
   * A bound key's placeholder can remain after substitution even though no value
   * holds `{{`: the braces around an inner placeholder close around its value.
   */
  lemma BoundPlaceholderCanRemain()
    ensures Contains(Substituted("{{{{a}}}}", [Binding("b", "x"), Binding("a", "b")]), Placeholder("b"))
  {
    SubstitutedTwice("{{{{a}}}}", Binding("b", "x"), Binding("a", "b"));
    NoBracedBInNestedA();
    NestedAReplaced();
    assert OccursAt("{{b}}", Placeholder("b"), 0);
    ContainsAt("{{b}}", Placeholder("b"), 0);
  }

  /** "{{{{a}}}}" holds no "{{b}}", so replacing it changes nothing. */
  lemma NoBracedBInNestedA()
    ensures ReplaceAll("{{{{a}}}}", Placeholder("b"), "x") == "{{{{a}}}}"
  {
    var s, pb := "{{{{a}}}}", Placeholder("b");
    assert pb == "{{b}}";
    forall t | 0 <= t <= |s|
      ensures !OccursAt(s, pb, t)
    {
      if t + 5 <= |s| {
        assert s[t..t + 5][2] == s[t + 2] != 'b';
      }
    }
    ReplaceAllAbsent(s, pb, "x");
  }

  /** Replacing "{{a}}" in "{{{{a}}}}" by "b" leaves "{{b}}". */
  lemma NestedAReplaced()
    ensures ReplaceAll("{{{{a}}}}", Placeholder("a"), "b") == "{{b}}"
  {
    var s, pa := "{{{{a}}}}", Placeholder("a");
    assert pa == "{{a}}";
    assert s[0..5] == "{{{{a" && s[1..6] == "{{{a}";
    assert forall t :: 0 <= t < 2 ==> !OccursAt(s, pa, t);
    ReplaceAllSkipsText(s, pa, "b", 2);
    assert s[2..][..5] == pa;
    ReplaceAllAtStart(s[2..], pa, "b");
    assert s[2..][5..] == "}}";
    assert ReplaceAll("}}", pa, "b") == "}}";
    assert s[..2] + ("b" + "}}") == "{{b}}";
  }
}
