/** `String.prototype.trim`: remove the leading and trailing whitespace of a
    string, keeping everything between them as it is. */
module Trimming {
  import opened Whitespace
  import opened Seqs

  /** Length of the whitespace run at the end of `s`. */
  function TrailingWs(s: string): (n: nat)
    ensures n <= |s|
    ensures AllWs(s[|s| - n..])
    ensures n == |s| || !IsWs(s[|s| - n - 1])
  {
    if |s| > 0 && IsWs(s[|s| - 1]) then
      var m := TrailingWs(s[..|s| - 1]);
      TrailingStep(s, m);
      1 + m
    else
      0
  }

  lemma TrailingStep(s: string, m: nat)
    requires 0 < |s| && m < |s| && IsWs(s[|s| - 1])
    requires AllWs(s[..|s| - 1][|s| - 1 - m..])
    ensures AllWs(s[|s| - (1 + m)..])
  {
    forall i | |s| - (1 + m) <= i < |s| ensures IsWs(s[i]) {
      if i < |s| - 1 {
        assert s[i] == s[..|s| - 1][|s| - 1 - m..][i - (|s| - 1 - m)];
      }
    }
  }

  lemma {:induction false} TrailingWsUnique(s: string, k: nat)
    requires k <= |s|
    requires AllWs(s[|s| - k..])
    requires k == |s| || !IsWs(s[|s| - k - 1])
    ensures TrailingWs(s) == k
  {
    if k > 0 {
      var s' := s[..|s| - 1];
      assert s[|s| - k..][k - 1] == s[|s| - 1];
      var tail := s'[|s'| - (k - 1)..];
      forall i | 0 <= i < |tail| ensures IsWs(tail[i]) {
        assert tail[i] == s[|s| - k..][i];
      }
      if k - 1 < |s'| {
        assert s'[|s'| - (k - 1) - 1] == s[|s| - k - 1];
      }
      TrailingWsUnique(s', k - 1);
    }
  }

  /** The trimmed string is the slice of `s` left after dropping its leading and
      its trailing whitespace run; it starts and ends with a visible character. */
  function Trim(s: string): (r: string)
    ensures LeadingWs(s) + |r| <= |s|
    ensures r == s[LeadingWs(s)..LeadingWs(s) + |r|]
    ensures AllWs(s[LeadingWs(s) + |r|..])
    ensures NoEdgeWs(r)
  {
    var rest := s[LeadingWs(s)..];
    rest[..|rest| - TrailingWs(rest)]
  }

  /** Trim is characterised by the decomposition: whatever whitespace `p` and
      `q` surround a string `t` with no whitespace at its edges, trimming
      `p + t + q` gives back exactly `t`. */
  lemma {:induction false} TrimUnique(p: string, t: string, q: string)
    requires AllWs(p) && AllWs(q) && NoEdgeWs(t)
    ensures Trim(p + t + q) == t
  {
    var s := p + t + q;
    if |t| == 0 {
      assert s == p + q;
      assert s[..|s|] == s;
      LeadingWsUnique(s, |s|);
    } else {
      assert s[..|p|] == p;
      assert s[|p|] == t[0];
      LeadingWsUnique(s, |p|);
      var rest := s[|p|..];
      assert rest == t + q;
      assert rest[|rest| - |q|..] == q;
      assert rest[|rest| - |q| - 1] == t[|t| - 1];
      TrailingWsUnique(rest, |q|);
      assert rest[..|rest| - |q|] == t;
    }
  }

  /** A string is left unchanged by trimming exactly when it has no whitespace
      at either edge. */
  lemma TrimFixedPoint(s: string)
    ensures Trim(s) == s <==> NoEdgeWs(s)
  {
    if NoEdgeWs(s) {
      assert [] + s + [] == s;
      TrimUnique([], s, []);
    }
  }

  lemma TrimIdempotent(s: string)
    ensures Trim(Trim(s)) == Trim(s)
  {
    TrimFixedPoint(Trim(s));
  }

  /** `s` splits into its leading whitespace, its trimmed form and its trailing
      whitespace. */
  lemma TrimSplit(s: string)
    ensures s == s[..LeadingWs(s)] + Trim(s) + s[LeadingWs(s) + |Trim(s)|..]
  {
    var a := LeadingWs(s);
    var r := Trim(s);
    SplitThree(s, a, a + |r|);
  }

  /** Trimming removes only whitespace: the visible characters are untouched. */
  lemma TrimKeepsNonWs(s: string)
    ensures NonWs(Trim(s)) == NonWs(s)
  {
    var a := LeadingWs(s);
    var r := Trim(s);
    var p, q := s[..a], s[a + |r|..];
    TrimSplit(s);
    NonWsConcat(p + r, q);
    NonWsConcat(p, r);
    NonWsEmptyIffAllWs(p);
    NonWsEmptyIffAllWs(q);
  }

  /** A string ending in a visible character loses only its leading run. */
  lemma TrimVisibleEnd(a: string)
    requires |a| > 0 && !IsWs(a[|a| - 1])
    ensures |Trim(a)| > 0
    ensures a == a[..LeadingWs(a)] + Trim(a)
  {
    var la := LeadingWs(a);
    var ta := Trim(a);
    SplitThree(a, la, la + |ta|);
  }

  /** A string starting with a visible character loses only its trailing run. */
  lemma TrimVisibleStart(b: string)
    requires |b| > 0 && !IsWs(b[0])
    ensures |Trim(b)| > 0
    ensures b == Trim(b) + b[|Trim(b)|..]
  {
    TrimSplit(b);
    assert b[..0] == [];
    if |Trim(b)| == 0 {
      assert b[0..][0] == b[0];
    }
  }

  /** Whitespace strictly inside a string survives trimming: when `a` ends and
      `b` starts with a visible character, trimming `a + m + b` trims only the
      outer edges of `a` and `b`. */
  lemma TrimAroundInterior(a: string, m: string, b: string)
    requires |a| > 0 && !IsWs(a[|a| - 1])
    requires |b| > 0 && !IsWs(b[0])
    ensures Trim(a + m + b) == Trim(a) + m + Trim(b)
  {
    var ta, tb := Trim(a), Trim(b);
    var p, q := a[..LeadingWs(a)], b[|tb|..];
    TrimVisibleEnd(a);
    TrimVisibleStart(b);
    var t := ta + m + tb;
    assert t[0] == ta[0];
    assert t[|t| - 1] == tb[|tb| - 1];
    assert a + m + b == p + t + q;
    TrimUnique(p, t, q);
  }
}
