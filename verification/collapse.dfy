/** `s.replace(/\s\s+/g, ' ')`: every maximal run of two or more whitespace
    characters becomes one space; a run of length one is left as it is. */
module RunCollapse {
  import opened Whitespace
  import opened Seqs

  /** Length of the first token of a non-empty string: its maximal leading
      whitespace run, or its first character when that one is visible. */
  function TokenLength(s: string): (n: nat)
    requires |s| > 0
    ensures 1 <= n <= |s|
    ensures !IsWs(s[0]) ==> n == 1
    ensures IsWs(s[0]) ==> n == LeadingWs(s)
  {
    if IsWs(s[0]) then LeadingWs(s) else 1
  }

  /** The character the first token is replaced by: a run of two or more
      whitespace characters becomes a space, anything else is copied. */
  function TokenImage(s: string): (c: char)
    requires |s| > 0
    ensures IsWs(c) <==> IsWs(s[0])
    ensures !IsWs(s[0]) ==> c == s[0]
  {
    if TokenLength(s) >= 2 then ' ' else s[0]
  }

  /** Reference definition, one token at a time. */
  function CollapseRuns(s: string): (r: string)
    ensures |r| <= |s|
    ensures |s| > 0 ==> |r| > 0 && (IsWs(r[0]) <==> IsWs(s[0]))
    decreases |s|
  {
    if |s| == 0 then [] else [TokenImage(s)] + CollapseRuns(s[TokenLength(s)..])
  }

  /** The result never holds two adjacent whitespace characters. */
  lemma {:induction false} CollapseRunsNoAdjacentWs(s: string)
    ensures NoAdjacentWs(CollapseRuns(s))
    decreases |s|
  {
    if |s| > 0 {
      var n := TokenLength(s);
      CollapseRunsNoAdjacentWs(s[n..]);
      NoAdjacentWsCons(TokenImage(s), CollapseRuns(s[n..]));
    }
  }

  /** Every character of the result is a space or a character of the input. */
  lemma {:induction false} CollapseRunsChars(s: string)
    ensures forall c :: c in CollapseRuns(s) ==> c == ' ' || c in s
    decreases |s|
  {
    if |s| > 0 {
      var n := TokenLength(s);
      CollapseRunsChars(s[n..]);
      forall c | c in CollapseRuns(s[n..]) && c != ' ' ensures c in s {
        assert c in s[n..];
        var k :| 0 <= k < |s[n..]| && s[n..][k] == c;
        assert s[n + k] == c;
      }
    }
  }

  /** The last character of the result is whitespace exactly when the last
      character of the input is. */
  lemma {:induction false} CollapseRunsLast(s: string)
    requires |s| > 0
    ensures |CollapseRuns(s)| > 0
    ensures IsWs(CollapseRuns(s)[|CollapseRuns(s)| - 1]) <==> IsWs(s[|s| - 1])
    decreases |s|
  {
    var n := TokenLength(s);
    if n < |s| {
      CollapseRunsLast(s[n..]);
      assert s[n..][|s[n..]| - 1] == s[|s| - 1];
    } else if IsWs(s[0]) {
      assert s[..n][n - 1] == s[|s| - 1];
    }
  }

  /** A whitespace-only string stays whitespace-only. */
  lemma CollapseRunsAllWs(w: string)
    requires AllWs(w)
    ensures AllWs(CollapseRuns(w))
  {
    CollapseRunsChars(w);
    var c := CollapseRuns(w);
    forall i | 0 <= i < |c| ensures IsWs(c[i]) {
      assert c[i] in c;
      if c[i] != ' ' {
        var k :| 0 <= k < |w| && w[k] == c[i];
      }
    }
  }

  /** A string is left unchanged exactly when no two whitespace characters
      are adjacent in it. */
  lemma {:induction false} CollapseRunsFixedPoint(s: string)
    ensures CollapseRuns(s) == s <==> NoAdjacentWs(s)
    decreases |s|
  {
    CollapseRunsNoAdjacentWs(s);
    if CollapseRuns(s) == s {
      assert NoAdjacentWs(s);
    }
    if |s| == 0 {
      assert CollapseRuns(s) == [];
    } else if NoAdjacentWs(s) {
      if IsWs(s[0]) {
        if |s| > 1 {
          assert !WsPairAt(s, 0);
        }
        LeadingWsUnique(s, 1);
      }
      assert TokenLength(s) == 1;
      NoAdjacentWsSlice(s, 1, |s|);
      assert s[1..|s|] == s[1..];
      CollapseRunsFixedPoint(s[1..]);
      assert TokenImage(s) == s[0];
      assert CollapseRuns(s) == [s[0]] + CollapseRuns(s[1..]);
      assert s == [s[0]] + s[1..];
    }
  }

  /** A token and the character it is replaced by have the same visible
      characters: none for a whitespace run, the character itself otherwise. */
  lemma TokenNonWs(s: string)
    requires |s| > 0
    ensures NonWs([TokenImage(s)]) == NonWs(s[..TokenLength(s)])
  {
    var n := TokenLength(s);
    if IsWs(s[0]) {
      NonWsEmptyIffAllWs(s[..n]);
      NonWsEmptyIffAllWs([TokenImage(s)]);
    } else {
      assert s[..n] == [s[0]];
    }
  }

  /** Collapsing removes whitespace only: the visible characters are kept, in
      order, none added. */
  lemma {:induction false} CollapseRunsKeepsNonWs(s: string)
    ensures NonWs(CollapseRuns(s)) == NonWs(s)
    decreases |s|
  {
    if |s| > 0 {
      var n := TokenLength(s);
      var rest := s[n..];
      CollapseRunsKeepsNonWs(rest);
      assert CollapseRuns(s) == [TokenImage(s)] + CollapseRuns(rest);
      NonWsConcat([TokenImage(s)], CollapseRuns(rest));
      TokenNonWs(s);
      SplitTwo(s, n);
      NonWsConcat(s[..n], rest);
    }
  }

  /** When `a` and `b` do not meet inside a whitespace run, the first token of
      `a + b` is the first token of `a`. */
  lemma TokenConcat(a: string, b: string)
    requires |a| > 0
    requires |b| == 0 || !IsWs(a[|a| - 1]) || !IsWs(b[0])
    ensures TokenLength(a + b) == TokenLength(a)
    ensures TokenImage(a + b) == TokenImage(a)
  {
    var s := a + b;
    assert s[0] == a[0];
    if IsWs(a[0]) {
      var n := LeadingWs(a);
      assert s[..n] == a[..n];
      if n < |a| {
        assert s[n] == a[n];
      } else if |b| > 0 {
        assert s[n] == b[0];
        assert a[..n][|a| - 1] == a[|a| - 1];
      }
      LeadingWsUnique(s, n);
    }
  }

  /** Collapsing distributes over a split that does not cut a whitespace run. */
  lemma {:induction false} CollapseRunsConcat(a: string, b: string)
    requires |a| == 0 || |b| == 0 || !IsWs(a[|a| - 1]) || !IsWs(b[0])
    ensures CollapseRuns(a + b) == CollapseRuns(a) + CollapseRuns(b)
    decreases |a|
  {
    if |a| == 0 {
      assert a + b == b;
    } else {
      TokenConcat(a, b);
      var n := TokenLength(a);
      DropAppend(a, b, n);
      if |a[n..]| > 0 {
        assert a[n..][|a[n..]| - 1] == a[|a| - 1];
      }
      CollapseRunsConcat(a[n..], b);
      AppendAssoc([TokenImage(a)], CollapseRuns(a[n..]), CollapseRuns(b));
    }
  }

  /** A whole whitespace run `w` at the front is one token. */
  lemma LeadingRun(w: string, y: string)
    requires |w| > 0 && AllWs(w)
    requires |y| == 0 || !IsWs(y[0])
    ensures CollapseRuns(w + y) == [if |w| >= 2 then ' ' else w[0]] + CollapseRuns(y)
  {
    var s := w + y;
    assert s[..|w|] == w;
    if |y| > 0 {
      assert s[|w|] == y[0];
    }
    assert s[0] == w[0];
    LeadingWsUnique(s, |w|);
    assert s[|w|..] == y;
  }

  /** A lone whitespace character between two visible ones is kept as it is,
      not turned into a space. */
  lemma LoneWsKept(x: string, c: char, y: string)
    requires IsWs(c)
    requires |x| == 0 || !IsWs(x[|x| - 1])
    requires |y| == 0 || !IsWs(y[0])
    ensures CollapseRuns(x + [c] + y) == CollapseRuns(x) + [c] + CollapseRuns(y)
  {
    CollapseRunsConcat(x, [c] + y);
    LeadingRun([c], y);
    AppendAssoc(x, [c], y);
    AppendAssoc(CollapseRuns(x), [c], CollapseRuns(y));
  }

  /** A run of two or more whitespace characters between two visible ones
      becomes a single space. */
  lemma LongRunCollapsed(x: string, w: string, y: string)
    requires |w| >= 2 && AllWs(w)
    requires |x| == 0 || !IsWs(x[|x| - 1])
    requires |y| == 0 || !IsWs(y[0])
    ensures CollapseRuns(x + w + y) == CollapseRuns(x) + [' '] + CollapseRuns(y)
  {
    CollapseRunsConcat(x, w + y);
    LeadingRun(w, y);
    AppendAssoc(x, w, y);
    AppendAssoc(CollapseRuns(x), [' '], CollapseRuns(y));
  }

  /** One step of the scan where `\s\s+` matches at `i` and the greedy match
      ends at `j`. */
  lemma MatchStep(s: string, i: nat, j: nat)
    requires i + 2 <= j <= |s|
    requires forall k :: i <= k < j ==> IsWs(s[k])
    requires j == |s| || !IsWs(s[j])
    ensures CollapseRuns(s[i..]) == [' '] + CollapseRuns(s[j..])
  {
    SplitTwo(s[i..], j - i);
    assert s[i..][..j - i] == s[i..j] && s[i..][j - i..] == s[j..];
    LeadingRun(s[i..j], s[j..]);
  }

  /** One step of the scan where `\s\s+` does not match at `i`. */
  lemma CopyStep(s: string, i: nat)
    requires i < |s|
    requires !(i + 1 < |s| && IsWs(s[i]) && IsWs(s[i + 1]))
    ensures CollapseRuns(s[i..]) == [s[i]] + CollapseRuns(s[i + 1..])
  {
    assert s[i..] == [s[i]] + s[i + 1..];
    if IsWs(s[i]) {
      LeadingRun([s[i]], s[i + 1..]);
    }
  }

  /** Where a greedy `\s\s+` match starting at `i` ends: the first position
      after `i + 1` that is not whitespace, or the end of the string. */
  method MatchEnd(s: string, i: nat) returns (j: nat)
    requires i + 1 < |s| && IsWs(s[i]) && IsWs(s[i + 1])
    ensures i + 2 <= j <= |s|
    ensures forall k :: i <= k < j ==> IsWs(s[k])
    ensures j == |s| || !IsWs(s[j])
  {
    j := i + 2;
    while j < |s| && IsWs(s[j])
      invariant i + 2 <= j <= |s|
      invariant forall k :: i <= k < j ==> IsWs(s[k])
    {
      j := j + 1;
    }
  }

  /** The global regular-expression replace as the engine performs it: scan
      left to right; where `\s\s+` matches, consume the whole greedy match and
      emit one space, otherwise copy one character and move on. */
  method ReplaceWsRuns(s: string) returns (r: string)
    ensures r == CollapseRuns(s)
  {
    r := [];
    var i := 0;
    while i < |s|
      invariant 0 <= i <= |s|
      invariant r + CollapseRuns(s[i..]) == CollapseRuns(s)
    {
      if i + 1 < |s| && IsWs(s[i]) && IsWs(s[i + 1]) {
        var j := MatchEnd(s, i);
        MatchStep(s, i, j);
        AppendAssoc(r, [' '], CollapseRuns(s[j..]));
        r := r + [' '];
        i := j;
      } else {
        CopyStep(s, i);
        AppendAssoc(r, [s[i]], CollapseRuns(s[i + 1..]));
        r := r + [s[i]];
        i := i + 1;
      }
    }
    assert s[i..] == [];
  }
}
