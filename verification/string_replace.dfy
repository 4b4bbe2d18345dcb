/**
 * PHP's `str_replace` for one search string: a left-to-right scan that
 * replaces every non-overlapping occurrence of the search string.
 */
module StringReplace {

  /** `pat` occurs in `s` starting at index `i`. */
  predicate OccursAt(s: string, pat: string, i: int)
  {
    0 <= i && i + |pat| <= |s| && s[i..i + |pat|] == pat
  }

  predicate Contains(s: string, pat: string)
  {
    exists i | 0 <= i <= |s| :: OccursAt(s, pat, i)
  }

  /** `pat` does not start at any of the first `n` positions of `s`. */
  predicate NoMatchBefore(s: string, pat: string, n: int)
  {
    forall i :: 0 <= i < n ==> !OccursAt(s, pat, i)
  }

  /** `str_replace(pat, rep, s)`; an empty search string leaves `s` unchanged. */
  function ReplaceAll(s: string, pat: string, rep: string): (r: string)
    decreases |s|
  {
    if pat == [] || |s| < |pat| then s
    else if s[..|pat|] == pat then rep + ReplaceAll(s[|pat|..], pat, rep)
    else [s[0]] + ReplaceAll(s[1..], pat, rep)
  }

  /** Number of occurrences of the character `c` in `s`. */
  function Count(s: string, c: char): (n: nat)
    ensures n <= |s|
  {
    if s == [] then 0 else (if s[0] == c then 1 else 0) + Count(s[1..], c)
  }

  lemma {:induction false} ReplaceAllAbsent(s: string, pat: string, rep: string)
    requires !Contains(s, pat)
    ensures ReplaceAll(s, pat, rep) == s
    decreases |s|
  {
    if pat != [] && |s| >= |pat| {
      assert !OccursAt(s, pat, 0);
      assert !Contains(s[1..], pat) by {
        forall i | OccursAt(s[1..], pat, i) ensures OccursAt(s, pat, i + 1) {
          assert s[1..][i..i + |pat|] == s[i + 1..i + 1 + |pat|];
        }
      }
      ReplaceAllAbsent(s[1..], pat, rep);
    }
  }

  /**
   * When the first occurrence of the search string starts right after `pre`,
   * `pre` is copied, that occurrence becomes `rep`, and the scan goes on after it.
   */
  lemma {:induction false} ReplaceAllFirst(pre: string, pat: string, post: string, rep: string)
    requires pat != []
    requires NoMatchBefore(pre + pat + post, pat, |pre|)
    ensures ReplaceAll(pre + pat + post, pat, rep) == pre + rep + ReplaceAll(post, pat, rep)
    decreases |pre|
  {
    if pre == [] {
      MatchAtStart(pat, post, rep);
      assert pre + pat + post == pat + post;
    } else {
      NoMatchAtStart(pre + pat + post, pat, rep);
      DropFirst(pre, pat, post);
      NoMatchShift(pre, pat, post);
      ReplaceAllFirst(pre[1..], pat, post, rep);
      DropFirst(pre, rep, ReplaceAll(post, pat, rep));
    }
  }

  lemma DropFirst(a: string, b: string, c: string)
    requires a != []
    ensures |a + b + c| > |b|
    ensures (a + b + c)[1..] == a[1..] + b + c
    ensures a + b + c == [a[0]] + (a[1..] + b + c)
  {
  }

  /** An occurrence at the start becomes `rep`, and the scan goes on after it. */
  lemma MatchAtStart(pat: string, post: string, rep: string)
    requires pat != []
    ensures ReplaceAll(pat + post, pat, rep) == rep + ReplaceAll(post, pat, rep)
  {
    var s := pat + post;
    assert s[..|pat|] == pat;
    assert s[|pat|..] == post;
  }

  /** Without an occurrence at the start, the first character is copied and the scan moves on. */
  lemma NoMatchAtStart(s: string, pat: string, rep: string)
    requires pat != [] && |s| > |pat| && NoMatchBefore(s, pat, 1)
    ensures ReplaceAll(s, pat, rep) == [s[0]] + ReplaceAll(s[1..], pat, rep)
  {
    assert !OccursAt(s, pat, 0);
  }

  /** Dropping the first character of `pre` keeps `pre` free of occurrences. */
  lemma NoMatchShift(pre: string, pat: string, post: string)
    requires pre != []
    requires NoMatchBefore(pre + pat + post, pat, |pre|)
    ensures NoMatchBefore(pre[1..] + pat + post, pat, |pre[1..]|)
  {
    var s := pre + pat + post;
    var tail := pre[1..] + pat + post;
    forall i | 0 <= i < |pre[1..]| ensures !OccursAt(tail, pat, i) {
      assert !OccursAt(s, pat, i + 1);
      assert tail[i..i + |pat|] == s[i + 1..i + 1 + |pat|];
    }
  }

  /** A text without the search character comes back unchanged. */
  lemma {:induction false} ReplaceCharAbsent(s: string, c: char, rep: string)
    requires c !in s
    ensures ReplaceAll(s, [c], rep) == s
  {
    if s != [] {
      assert s[..1] != [c] by {
        assert s[..1][0] == s[0];
      }
      ReplaceCharAbsent(s[1..], c, rep);
      assert s == [s[0]] + s[1..];
    }
  }

  /** Replacing a one-character search string works piece by piece. */
  lemma {:induction false} ReplaceCharAppend(a: string, b: string, c: char, rep: string)
    ensures ReplaceAll(a + b, [c], rep) == ReplaceAll(a, [c], rep) + ReplaceAll(b, [c], rep)
  {
    if a == [] {
      assert a + b == b;
    } else {
      assert (a + b)[1..] == a[1..] + b;
      assert (a + b)[..1] == a[..1];
      ReplaceCharAppend(a[1..], b, c, rep);
    }
  }

  /** Two pieces free of `c` joined by `c` come out joined by `rep`. */
  lemma ReplaceCharJoin(a: string, b: string, c: char, rep: string)
    requires c !in a && c !in b
    ensures ReplaceAll(a + [c] + b, [c], rep) == a + rep + b
  {
    var cb := [c] + b;
    assert a + [c] + b == a + cb;
    ReplaceCharAppend(a, cb, c, rep);
    ReplaceCharAppend([c], b, c, rep);
    ReplaceCharWhole(c, rep);
    ReplaceCharAbsent(a, c, rep);
    ReplaceCharAbsent(b, c, rep);
    assert a + (rep + b) == a + rep + b;
  }

  /** The character alone is replaced whole. */
  lemma ReplaceCharWhole(c: char, rep: string)
    ensures ReplaceAll([c], [c], rep) == rep
  {
    assert ReplaceAll([c], [c], rep) == rep + ReplaceAll([], [c], rep);
  }

  /** Each occurrence of the character grows the text by `|rep| - 1`. */
  lemma {:induction false} ReplaceCharLength(s: string, c: char, rep: string)
    ensures |ReplaceAll(s, [c], rep)| == |s| + (|rep| - 1) * Count(s, c)
  {
    if s != [] {
      ReplaceCharLength(s[1..], c, rep);
      assert s[..1] == [s[0]];
    }
  }

  /**
   * When `rep` does not hold the first character of `pat` and every such
   * character of `s` starts an occurrence of `pat`, none is left afterwards,
   * and so neither is `pat`.
   */
  lemma {:induction false} ReplaceAllLeavesNoLead(s: string, pat: string, rep: string)
    requires pat != [] && pat[0] !in rep
    requires forall i :: 0 <= i < |s| && s[i] == pat[0] ==> OccursAt(s, pat, i)
    ensures pat[0] !in ReplaceAll(s, pat, rep)
    ensures !Contains(ReplaceAll(s, pat, rep), pat)
    decreases |s|
  {
    var r := ReplaceAll(s, pat, rep);
    if |s| < |pat| {
      assert pat[0] !in s by {
        forall i | 0 <= i < |s| ensures s[i] != pat[0] {
          assert !OccursAt(s, pat, i);
        }
      }
    } else if s[..|pat|] == pat {
      LeadsShift(s, pat, |pat|);
      ReplaceAllLeavesNoLead(s[|pat|..], pat, rep);
    } else {
      assert !OccursAt(s, pat, 0);
      LeadsShift(s, pat, 1);
      ReplaceAllLeavesNoLead(s[1..], pat, rep);
    }
    NoLeadNoMatch(r, pat);
  }

  /** Every occurrence of the lead character still starts an occurrence after dropping a prefix. */
  lemma LeadsShift(s: string, pat: string, k: nat)
    requires pat != [] && k <= |s|
    requires forall i :: 0 <= i < |s| && s[i] == pat[0] ==> OccursAt(s, pat, i)
    ensures forall i :: 0 <= i < |s[k..]| && s[k..][i] == pat[0] ==> OccursAt(s[k..], pat, i)
  {
    var t := s[k..];
    forall i | 0 <= i < |t| && t[i] == pat[0] ensures OccursAt(t, pat, i) {
      assert s[i + k] == t[i];
      assert OccursAt(s, pat, i + k);
      assert t[i..i + |pat|] == s[i + k..i + k + |pat|];
    }
  }

  /** A text without the first character of `pat` does not contain `pat`. */
  lemma NoLeadNoMatch(r: string, pat: string)
    requires pat != [] && pat[0] !in r
    ensures !Contains(r, pat)
  {
    forall i | 0 <= i <= |r| ensures !OccursAt(r, pat, i) {
      if i + |pat| <= |r| {
        assert r[i..i + |pat|][0] == r[i];
      }
    }
  }

  /**
   * No occurrence of `pat` in `s` is directly preceded by a proper prefix of
   * `pat`: a replacement can then never complete an occurrence begun before it.
   */
  predicate NoStraddle(s: string, pat: string)
  {
    forall i, j | 0 <= i < j <= |s| :: !StraddleAt(s, pat, i, j)
  }

  /** `s[i..j]` is a proper prefix of `pat` and `pat` occurs right after it, at `j`. */
  predicate StraddleAt(s: string, pat: string, i: int, j: int)
  {
    0 <= i < j <= |s| && j - i < |pat| && OccursAt(s, pat, j) && s[i..j] == pat[..j - i]
  }

  /** The leftmost occurrence of `pat` in a text that contains it. */
  lemma FirstOccurrence(t: string, pat: string) returns (q: nat)
    requires Contains(t, pat)
    ensures OccursAt(t, pat, q) && NoMatchBefore(t, pat, q)
  {
    var i :| 0 <= i <= |t| && OccursAt(t, pat, i);
    q := 0;
    while !OccursAt(t, pat, q)
      invariant q <= i && NoMatchBefore(t, pat, q)
      decreases i - q
    {
      q := q + 1;
    }
  }

  /** Dropping a prefix keeps the no-straddle property. */
  lemma NoStraddleShift(s: string, pat: string, k: nat)
    requires k <= |s| && NoStraddle(s, pat)
    ensures NoStraddle(s[k..], pat)
  {
    var t := s[k..];
    forall i, j | 0 <= i < j <= |t| ensures !StraddleAt(t, pat, i, j) {
      if StraddleAt(t, pat, i, j) {
        assert t[j..j + |pat|] == s[j + k..j + k + |pat|];
        assert t[i..j] == s[i + k..j + k];
        assert StraddleAt(s, pat, i + k, j + k);
      }
    }
  }

  /**
   * When `rep` does not hold the first character of `pat` and no occurrence is
   * preceded by a proper prefix of `pat`, `pat` does not survive the replacement.
   */
  lemma {:induction false} NoStraddleNoMatch(s: string, pat: string, rep: string)
    requires pat != [] && pat[0] !in rep
    requires NoStraddle(s, pat)
    ensures !Contains(ReplaceAll(s, pat, rep), pat)
    decreases |s|
  {
    if |s| < |pat| {
      forall k | 0 <= k <= |s| ensures !OccursAt(s, pat, k) {
      }
    } else if s[..|pat|] == pat {
      var t := s[|pat|..];
      NoStraddleShift(s, pat, |pat|);
      NoStraddleNoMatch(t, pat, rep);
      forall k | 0 <= k < |rep| ensures !OccursAt(rep + ReplaceAll(t, pat, rep), pat, k) {
        if OccursAt(rep + ReplaceAll(t, pat, rep), pat, k) {
          LeadAt(rep + ReplaceAll(t, pat, rep), pat, k);
        }
      }
      AppendNoMatch(rep, ReplaceAll(t, pat, rep), pat);
    } else {
      var t := s[1..];
      NoStraddleShift(s, pat, 1);
      NoStraddleNoMatch(t, pat, rep);
      NoMatchAtHead(s, pat, rep);
      AppendNoMatch([s[0]], ReplaceAll(t, pat, rep), pat);
    }
  }

  /** An occurrence at `k` starts with the character at `k`. */
  lemma LeadAt(r: string, pat: string, k: nat)
    requires pat != [] && OccursAt(r, pat, k)
    ensures r[k] == pat[0]
  {
    assert r[k..k + |pat|][0] == r[k];
  }

  /** An occurrence in `a + b` starting past `a` is an occurrence in `b`. */
  lemma AppendNoMatch(a: string, b: string, pat: string)
    requires !Contains(b, pat) && NoMatchBefore(a + b, pat, |a|)
    ensures !Contains(a + b, pat)
  {
    var r := a + b;
    forall k | |a| <= k <= |r| ensures !OccursAt(r, pat, k) {
      if OccursAt(r, pat, k) {
        assert r[k..k + |pat|] == b[k - |a|..k - |a| + |pat|];
        assert OccursAt(b, pat, k - |a|);
      }
    }
  }

  /** A text that contains `pat` is copied up to its leftmost occurrence, which becomes `rep`. */
  lemma ReplacedAtFirst(t: string, pat: string, rep: string) returns (q: nat)
    requires pat != [] && Contains(t, pat)
    ensures OccursAt(t, pat, q)
    ensures ReplaceAll(t, pat, rep) == t[..q] + rep + ReplaceAll(t[q + |pat|..], pat, rep)
  {
    q := FirstOccurrence(t, pat);
    var pre := t[..q];
    var post := t[q + |pat|..];
    assert t == pre + pat + post;
    ReplaceAllFirst(pre, pat, post, rep);
  }

  /** The case of `NoStraddleNoMatch` where the scan copies the first character: no occurrence at 0. */
  lemma NoMatchAtHead(s: string, pat: string, rep: string)
    requires pat != [] && |s| >= |pat| && s[..|pat|] != pat
    requires NoStraddle(s, pat)
    ensures NoMatchBefore(ReplaceAll(s, pat, rep), pat, 1)
  {
    var t := s[1..];
    var r := ReplaceAll(s, pat, rep);
    assert r == [s[0]] + ReplaceAll(t, pat, rep);
    if !Contains(t, pat) {
      ReplaceAllAbsent(t, pat, rep);
      assert r == s;
      PrefixDiffers(r, pat, |pat|);
    } else {
      var q := ReplacedAtFirst(t, pat, rep);
      var w := ReplaceAll(t[q + |pat|..], pat, rep);
      assert r == [s[0]] + (t[..q] + rep + w);
      ConsPrefix(s, q, rep, w);
      OccursShift(s, pat, q);
      HeadBeforeFirst(s, pat, r, q + 1);
    }
  }

  /**
   * `NoMatchAtHead` once `r` is known to agree with `s` up to `n`, where the
   * next occurrence in `s` starts.
   */
  lemma HeadBeforeFirst(s: string, pat: string, r: string, n: nat)
    requires NoStraddle(s, pat) && |s| >= |pat| && s[..|pat|] != pat
    requires OccursAt(s, pat, n) && 0 < n <= |r| && r[..n] == s[..n]
    ensures !OccursAt(r, pat, 0)
  {
    if n < |pat| {
      assert !StraddleAt(s, pat, 0, n);
      assert s[0..n] == s[..n];
      PrefixDiffers(r, pat, n);
    } else {
      assert r[..|pat|] == r[..n][..|pat|];
      assert s[..|pat|] == s[..n][..|pat|];
      PrefixDiffers(r, pat, |pat|);
    }
  }

  /** An occurrence after the first character is an occurrence one place further in `s`. */
  lemma OccursShift(s: string, pat: string, q: nat)
    requires s != [] && OccursAt(s[1..], pat, q)
    ensures OccursAt(s, pat, q + 1)
  {
    assert s[q + 1..q + 1 + |pat|] == s[1..][q..q + |pat|];
  }

  /** Copying the first character before the text up to `q` gives back `s` up to `q + 1`. */
  lemma ConsPrefix(s: string, q: nat, v: string, w: string)
    requires q < |s|
    ensures ([s[0]] + (s[1..][..q] + v + w))[..q + 1] == s[..q + 1]
  {
  }

  /** A text whose first `n` characters are not those of `pat` has no occurrence at 0. */
  lemma PrefixDiffers(r: string, pat: string, n: nat)
    requires n <= |pat| && n <= |r| && r[..n] != pat[..n]
    ensures !OccursAt(r, pat, 0)
  {
    if |pat| <= |r| {
      assert r[0..|pat|][..n] == r[..n];
    }
  }

  /**
   * An occurrence preceded by a proper prefix of `pat` is completed again by a
   * replacement text that continues that prefix.
   */
  lemma StraddleSurvives(pre: string, pat: string, rep: string)
    requires pre != [] && |pre| < |pat| && pre == pat[..|pre|]
    requires NoMatchBefore(pre + pat, pat, |pre|)
    requires |pat| - |pre| <= |rep| && rep[..|pat| - |pre|] == pat[|pre|..]
    ensures ReplaceAll(pre + pat, pat, rep) == pre + rep
    ensures OccursAt(pre + rep, pat, 0)
    ensures StraddleAt(pre + pat, pat, 0, |pre|)
  {
    ReplaceAtEnd(pre, pat, rep);
    ContinuedPrefix(pre, pat, rep);
    StraddleAtPrefix(pre, pat);
  }

  /** A prefix of `pat` followed by a text that continues it holds `pat` at 0. */
  lemma ContinuedPrefix(pre: string, pat: string, rep: string)
    requires |pre| <= |pat| && pre == pat[..|pre|]
    requires |pat| - |pre| <= |rep| && rep[..|pat| - |pre|] == pat[|pre|..]
    ensures OccursAt(pre + rep, pat, 0)
  {
    var k := |pat| - |pre|;
    ConcatPrefix(pre, rep, k);
    assert pat == pat[..|pre|] + pat[|pre|..];
  }

  /** The only occurrence, at the very end, is replaced. */
  lemma ReplaceAtEnd(pre: string, pat: string, rep: string)
    requires pat != [] && NoMatchBefore(pre + pat, pat, |pre|)
    ensures ReplaceAll(pre + pat, pat, rep) == pre + rep
  {
    var e: string := [];
    assert pre + pat + e == pre + pat;
    ReplaceAllFirst(pre, pat, e, rep);
    assert pre + rep + e == pre + rep;
  }

  /** A proper prefix of `pat` followed by `pat` straddles. */
  lemma StraddleAtPrefix(pre: string, pat: string)
    requires pre != [] && |pre| < |pat| && pre == pat[..|pre|]
    ensures StraddleAt(pre + pat, pat, 0, |pre|)
  {
    assert (pre + pat)[|pre|..|pre| + |pat|] == pat;
    assert (pre + pat)[0..|pre|] == pre;
  }

  lemma ConcatPrefix(a: string, b: string, k: nat)
    requires k <= |b|
    ensures (a + b)[0..|a| + k] == a + b[..k]
  {
  }
}
