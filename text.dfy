/** The .NET string operations the core relies on, with ordinal (culture-free)
    comparisons and ASCII-only case mapping. */
module Text {
  import opened Wrappers

  /** `s` begins with `p` (String.StartsWith). */
  predicate StartsWith(s: string, p: string) {
    |p| <= |s| && s[..|p|] == p
  }

  /** `s` ends with `p` (String.EndsWith). */
  predicate EndsWith(s: string, p: string) {
    |p| <= |s| && s[|s| - |p|..] == p
  }

  /** `p` occurs in `s` at position `k`. */
  predicate OccursAt(s: string, p: string, k: int) {
    0 <= k && k + |p| <= |s| && s[k..k + |p|] == p
  }

  predicate Contains(s: string, p: string) {
    exists k :: 0 <= k <= |s| && OccursAt(s, p, k)
  }

  predicate IsUpper(c: char) {
    'A' <= c <= 'Z'
  }

  function ToLowerChar(c: char): (r: char)
    ensures !IsUpper(r)
    ensures IsUpper(c) ==> 'a' <= r <= 'z'
    ensures !IsUpper(c) ==> r == c
  {
    if IsUpper(c) then (c as int + 32) as char else c
  }

  /** String.ToLower on ASCII letters; every other character is kept. */
  function ToLower(s: string): (r: string)
    ensures |r| == |s|
    ensures forall i :: 0 <= i < |s| ==> r[i] == ToLowerChar(s[i])
    ensures forall c :: c in r ==> !IsUpper(c)
  {
    seq(|s|, i requires 0 <= i < |s| => ToLowerChar(s[i]))
  }

  /** Lower-casing neither adds nor removes a character that is not a letter. */
  lemma ToLowerKeepsNonLetters(s: string, x: char)
    requires !IsUpper(x) && !('a' <= x <= 'z')
    ensures x in ToLower(s) <==> x in s
  {
    var r := ToLower(s);
    if x in r {
      var i :| 0 <= i < |r| && r[i] == x;
      assert s[i] == x;
    }
    if x in s {
      var i :| 0 <= i < |s| && s[i] == x;
      assert r[i] == x;
    }
  }

  /** String.Replace(from, to) for one-character strings. */
  function ReplaceChar(s: string, from: char, to: char): (r: string)
    ensures |r| == |s|
    ensures from != to ==> from !in r
    ensures forall i :: 0 <= i < |s| && s[i] != from ==> r[i] == s[i]
    ensures forall i :: 0 <= i < |s| && s[i] == from ==> r[i] == to
  {
    seq(|s|, i requires 0 <= i < |s| => if s[i] == from then to else s[i])
  }

  /** String.Replace(c, "") : every `c` removed, the rest kept in order. */
  function RemoveChar(s: string, c: char): (r: string)
    ensures c !in r
    ensures forall x :: x != c ==> multiset(r)[x] == multiset(s)[x]
    ensures c !in s ==> r == s
  {
    if s == [] then []
    else
      assert s == [s[0]] + s[1..];
      (if s[0] == c then [] else [s[0]]) + RemoveChar(s[1..], c)
  }

  /** String.TrimStart(c): the longest run of leading `c` removed. */
  function TrimStart(s: string, c: char): (r: string)
    ensures |r| <= |s| && r == s[|s| - |r|..]
    ensures forall k :: 0 <= k < |s| - |r| ==> s[k] == c
    ensures r == [] || r[0] != c
    ensures forall x :: x in r ==> x in s
  {
    if |s| > 0 && s[0] == c then TrimStart(s[1..], c) else s
  }

  /** String.TrimEnd(c): the longest run of trailing `c` removed. */
  function TrimEnd(s: string, c: char): (r: string)
    ensures |r| <= |s| && r == s[..|r|]
    ensures forall k :: |r| <= k < |s| ==> s[k] == c
    ensures r == [] || r[|r| - 1] != c
    ensures forall x :: x in r ==> x in s
  {
    if |s| > 0 && s[|s| - 1] == c then TrimEnd(s[..|s| - 1], c) else s
  }

  /** String.Trim(c): leading and trailing runs of `c` removed. The result is the infix of
      `s` that starts after its whole leading run of `c` and ends before its trailing run. */
  function Trim(s: string, c: char): (r: string)
    ensures |r| <= |s|
    ensures var k := |s| - |TrimStart(s, c)|;
      && k + |r| <= |s| && r == s[k..k + |r|]
      && (forall i :: 0 <= i < k ==> s[i] == c)
      && (forall i :: k + |r| <= i < |s| ==> s[i] == c)
    ensures r == [] || (r[0] != c && r[|r| - 1] != c)
    ensures |s| > 0 && s[0] != c && s[|s| - 1] != c ==> r == s
    ensures forall x :: x in r ==> x in s
  {
    TrimEnd(TrimStart(s, c), c)
  }

  /** String.IndexOf(c): the first position of `c`, or -1. */
  function IndexOf(s: string, c: char): (r: int)
    ensures -1 <= r < |s|
    ensures r == -1 <==> c !in s
    ensures r >= 0 ==> s[r] == c && c !in s[..r]
  {
    if |s| == 0 then -1
    else if s[0] == c then 0
    else
      var k := IndexOf(s[1..], c);
      if k < 0 then -1 else k + 1
  }

  /** String.LastIndexOf(c): the last position of `c`, or -1. */
  function LastIndexOf(s: string, c: char): (r: int)
    ensures -1 <= r < |s|
    ensures r == -1 <==> c !in s
    ensures r >= 0 ==> s[r] == c && c !in s[r + 1..]
  {
    if |s| == 0 then -1
    else if s[|s| - 1] == c then |s| - 1
    else LastIndexOf(s[..|s| - 1], c)
  }

  /** `s.Split(c).First()`: the text before the first `c`, or all of `s`. */
  function BeforeFirst(s: string, c: char): (r: string)
    ensures c !in r && StartsWith(s, r)
    ensures c in s ==> s[|r|] == c
    ensures c !in s ==> r == s
  {
    var i := IndexOf(s, c);
    if i < 0 then s else s[..i]
  }

  /** `s.Split(c).Last()`: the text after the last `c`, or all of `s`. */
  function AfterLast(s: string, c: char): (r: string)
    ensures c !in r && EndsWith(s, r)
    ensures c in s ==> s[|s| - |r| - 1] == c
    ensures c !in s ==> r == s
  {
    var i := LastIndexOf(s, c);
    if i < 0 then s else s[i + 1..]
  }

  /** A `c` with no `c` after it is the last one. */
  lemma LastIndexOfAt(s: string, c: char, k: int)
    requires 0 <= k < |s| && s[k] == c && c !in s[k + 1..]
    ensures LastIndexOf(s, c) == k
  {
  }

  /** The text after the last `c` of `x + [c] + n` is `n` when `n` holds no `c`. */
  lemma AfterLastOfJoin(x: string, c: char, n: string)
    requires c !in n
    ensures AfterLast(x + [c] + n, c) == n
  {
    var s := x + [c] + n;
    var i := LastIndexOf(s, c);
    assert s[|x|] == c;
    assert s[i + 1..] == n;
  }

  /** The text before the first `c` of `x + [c] + n` is `x` when `x` holds no `c`. */
  lemma BeforeFirstOfJoin(x: string, c: char, n: string)
    requires c !in x
    ensures BeforeFirst(x + [c] + n, c) == x
  {
    var s := x + [c] + n;
    var r := BeforeFirst(s, c);
    assert s[|x|] == c;
    assert |r| == |x|;
    assert r == s[..|x|] == x;
  }

  /** Char.IsWhiteSpace: the Unicode space, line and paragraph separators (categories Zs,
      Zl and Zp) and the control characters U+0009 to U+000D and U+0085. */
  predicate IsWhiteSpace(c: char) {
    || c == ' ' || c == '\U{00A0}' || c == '\U{1680}' || '\U{2000}' <= c <= '\U{200A}'
    || c == '\U{202F}' || c == '\U{205F}' || c == '\U{3000}'
    || c == '\U{2028}' || c == '\U{2029}'
    || '\t' <= c <= '\r' || c == '\U{0085}'
  }

  /** String.IsNullOrWhiteSpace; `None` is the null string. */
  predicate IsNullOrWhiteSpace(v: Option<string>) {
    v.None? || forall c :: c in v.value ==> IsWhiteSpace(c)
  }

  /** String.Replace(pat, rep): every non-overlapping occurrence of `pat`,
      scanning from the left, replaced by `rep`. */
  function ReplaceAll(s: string, pat: string, rep: string): string
    requires |pat| > 0
    decreases |s|
  {
    if |s| < |pat| then s
    else if s[..|pat|] == pat then rep + ReplaceAll(s[|pat|..], pat, rep)
    else [s[0]] + ReplaceAll(s[1..], pat, rep)
  }

  /** Text without `pat` is left alone. */
  lemma {:induction false} ReplaceAllWithoutMatch(s: string, pat: string, rep: string)
    requires |pat| > 0 && !Contains(s, pat)
    ensures ReplaceAll(s, pat, rep) == s
  {
    if |s| >= |pat| {
      assert !OccursAt(s, pat, 0);
      assert !Contains(s[1..], pat) by {
        forall k | OccursAt(s[1..], pat, k) ensures OccursAt(s, pat, k + 1) {
          assert s[k + 1..k + 1 + |pat|] == s[1..][k..k + |pat|];
        }
      }
      ReplaceAllWithoutMatch(s[1..], pat, rep);
    }
  }

  /** A leading part that cannot start `pat` is copied unchanged. */
  lemma {:induction false} ReplaceAllPlainPrefix(x: string, s: string, pat: string, rep: string)
    requires |pat| > 0 && pat[0] !in x
    ensures ReplaceAll(x + s, pat, rep) == x + ReplaceAll(s, pat, rep)
  {
    if x != [] {
      assert x[0] in x;
      assert (x + s)[1..] == x[1..] + s;
      ReplaceAllPlainPrefix(x[1..], s, pat, rep);
      if |x + s| >= |pat| {
        assert (x + s)[..|pat|][0] == x[0] != pat[0];
        assert ReplaceAll(x + s, pat, rep) == [x[0]] + ReplaceAll(x[1..] + s, pat, rep);
        assert [x[0]] + (x[1..] + ReplaceAll(s, pat, rep)) == x + ReplaceAll(s, pat, rep);
      } else {
        assert ReplaceAll(s, pat, rep) == s;
      }
    } else {
      assert x + s == s;
    }
  }

  /** Text that begins with `pat` is replaced by text that begins with `rep`,
      so it cannot begin with a `q` that avoids the characters of `rep`. */
  lemma ReplacedMatchStartsWithRep(t: string, pat: string, rep: string, q: string)
    requires |pat| > 0 && |rep| > 0 && q != []
    requires forall ch :: ch in q ==> ch !in rep
    requires |t| >= |pat| && t[..|pat|] == pat
    ensures !StartsWith(ReplaceAll(t, pat, rep), q)
  {
    assert ReplaceAll(t, pat, rep)[0] == rep[0] && rep[0] in rep && q[0] in q;
  }

  /** `pat` cannot begin inside `rep` when they share no character. */
  lemma NoOccurrenceInsideRep(rep: string, tail: string, pat: string, k: int)
    requires |pat| > 0 && 0 <= k < |rep|
    requires forall ch :: ch in pat ==> ch !in rep
    ensures !OccursAt(rep + tail, pat, k)
  {
    assert (rep + tail)[k] == rep[k] && rep[k] in rep && pat[0] in pat;
  }

  /** If the replaced text begins with `q`, and `q` shares no character with `rep` nor
      contains the first character of `pat`, then the original text began with `q`. */
  lemma {:induction false} ReplaceAllReflectsPrefix(t: string, pat: string, rep: string, q: string)
    requires |pat| > 0 && |rep| > 0
    requires forall ch :: ch in q ==> ch !in rep && ch != pat[0]
    requires StartsWith(ReplaceAll(t, pat, rep), q)
    ensures StartsWith(t, q)
    decreases |t|
  {
    if q == [] {
    } else if |t| < |pat| {
      assert ReplaceAll(t, pat, rep) == t;
    } else if t[..|pat|] == pat {
      ReplacedMatchStartsWithRep(t, pat, rep, q);
    } else {
      var tail := ReplaceAll(t[1..], pat, rep);
      assert ReplaceAll(t, pat, rep) == [t[0]] + tail;
      assert StartsWith(tail, q[1..]) by {
        assert tail[..|q| - 1] == ReplaceAll(t, pat, rep)[1..|q|];
      }
      forall ch | ch in q[1..] ensures ch !in rep && ch != pat[0] {
        assert ch in q;
      }
      ReplaceAllReflectsPrefix(t[1..], pat, rep, q[1..]);
      assert t[..|q|] == [t[0]] + t[1..][..|q| - 1];
    }
  }

  /** Where the text does not begin with `pat`, neither does its replacement. */
  lemma ReplaceAllNoMatchAtStart(s: string, pat: string, rep: string)
    requires |pat| > 0 && |rep| > 0
    requires forall ch :: ch in pat ==> ch !in rep
    requires pat[0] !in pat[1..]
    requires |s| >= |pat| && s[..|pat|] != pat
    ensures !OccursAt(ReplaceAll(s, pat, rep), pat, 0)
  {
    var r := ReplaceAll(s, pat, rep);
    var tail := ReplaceAll(s[1..], pat, rep);
    assert r == [s[0]] + tail;
    if OccursAt(r, pat, 0) {
      assert r[0] == s[0] == pat[0];
      assert StartsWith(tail, pat[1..]) by {
        assert tail[..|pat| - 1] == r[1..|pat|] == pat[1..];
      }
      forall ch | ch in pat[1..] ensures ch !in rep && ch != pat[0] {
        assert ch in pat;
      }
      ReplaceAllReflectsPrefix(s[1..], pat, rep, pat[1..]);
      assert false;
    }
  }

  /** An occurrence past a leading part is an occurrence in the rest. */
  lemma OccursAfter(head: string, tail: string, pat: string, k: int)
    requires OccursAt(head + tail, pat, k) && k >= |head|
    ensures OccursAt(tail, pat, k - |head|)
  {
    assert tail[k - |head|..k - |head| + |pat|] == (head + tail)[k..k + |pat|];
  }

  /** When `rep` shares no character with `pat`, and the first character of `pat` does not
      occur again in it, no occurrence of `pat` is left after ReplaceAll. */
  lemma {:induction false} ReplaceAllRemovesAll(s: string, pat: string, rep: string)
    requires |pat| > 0 && |rep| > 0
    requires forall ch :: ch in pat ==> ch !in rep
    requires pat[0] !in pat[1..]
    ensures !Contains(ReplaceAll(s, pat, rep), pat)
    decreases |s|
  {
    if |s| >= |pat| {
      var matched := s[..|pat|] == pat;
      var rest := if matched then s[|pat|..] else s[1..];
      var head := if matched then rep else [s[0]];
      var tail := ReplaceAll(rest, pat, rep);
      ReplaceAllRemovesAll(rest, pat, rep);
      assert ReplaceAll(s, pat, rep) == head + tail;
      forall k | 0 <= k <= |head + tail| && OccursAt(head + tail, pat, k) ensures false {
        if k >= |head| {
          OccursAfter(head, tail, pat, k);
        } else if matched {
          NoOccurrenceInsideRep(rep, tail, pat, k);
        } else {
          ReplaceAllNoMatchAtStart(s, pat, rep);
        }
      }
    }
  }
}
