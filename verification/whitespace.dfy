/** Whitespace as the browser's JavaScript engine sees it: the code points matched
    by `\s` in a regular expression, which are also the code points that
    `String.prototype.trim` removes. Strings are sequences of Unicode scalar values. */
module Whitespace {

  /** The ECMAScript WhiteSpace and LineTerminator code points: tab, line feed,
      vertical tab, form feed, carriage return, space, no-break space, byte order
      mark, line and paragraph separators, and the Unicode space separators. */
  predicate IsWs(c: char) {
    || c == '\t' || c == '\n' || c == '\U{000B}' || c == '\U{000C}' || c == '\r'
    || c == ' ' || c == '\U{00A0}' || c == '\U{1680}'
    || ('\U{2000}' <= c <= '\U{200A}')
    || c == '\U{2028}' || c == '\U{2029}' || c == '\U{202F}' || c == '\U{205F}'
    || c == '\U{3000}' || c == '\U{FEFF}'
  }

  predicate AllWs(s: string) {
    forall i :: 0 <= i < |s| ==> IsWs(s[i])
  }

  /** Neither the first nor the last character is whitespace. */
  predicate NoEdgeWs(s: string) {
    |s| == 0 || (!IsWs(s[0]) && !IsWs(s[|s| - 1]))
  }

  predicate WsPairAt(s: string, i: int)
    requires 0 <= i < |s| - 1
  {
    IsWs(s[i]) && IsWs(s[i + 1])
  }

  /** No two consecutive characters are both whitespace. */
  predicate NoAdjacentWs(s: string) {
    forall i :: 0 <= i < |s| - 1 ==> !WsPairAt(s, i)
  }

  /** Length of the whitespace run at the start of `s`. */
  function LeadingWs(s: string): (n: nat)
    ensures n <= |s|
    ensures AllWs(s[..n])
    ensures n == |s| || !IsWs(s[n])
  {
    if |s| > 0 && IsWs(s[0]) then
      var m := LeadingWs(s[1..]);
      assert s[..1 + m] == [s[0]] + s[1..][..m];
      1 + m
    else
      0
  }

  /** The whitespace run at the start of `s` is determined by where it ends. */
  lemma {:induction false} LeadingWsUnique(s: string, k: nat)
    requires k <= |s|
    requires AllWs(s[..k])
    requires k == |s| || !IsWs(s[k])
    ensures LeadingWs(s) == k
  {
    if k > 0 {
      assert s[..k][0] == s[0];
      assert s[1..][..k - 1] == s[..k][1..];
      LeadingWsUnique(s[1..], k - 1);
    }
  }

  /** The visible characters of `s`: its non-whitespace characters, in order. */
  function NonWs(s: string): (r: string)
    ensures |r| <= |s|
    ensures forall c :: c in r ==> c in s && !IsWs(c)
  {
    if |s| == 0 then []
    else (if IsWs(s[0]) then [] else [s[0]]) + NonWs(s[1..])
  }

  lemma {:induction false} NonWsConcat(a: string, b: string)
    ensures NonWs(a + b) == NonWs(a) + NonWs(b)
  {
    if |a| > 0 {
      assert (a + b)[1..] == a[1..] + b;
      NonWsConcat(a[1..], b);
    } else {
      assert a + b == b;
    }
  }

  /** A string has no visible characters exactly when it is all whitespace. */
  lemma {:induction false} NonWsEmptyIffAllWs(s: string)
    ensures NonWs(s) == [] <==> AllWs(s)
  {
    if |s| > 0 {
      NonWsEmptyIffAllWs(s[1..]);
      if !IsWs(s[0]) {
        assert NonWs(s)[0] == s[0];
      } else {
        assert AllWs(s[1..]) ==> AllWs(s) by {
          if AllWs(s[1..]) {
            forall i | 1 <= i < |s| ensures IsWs(s[i]) {
              assert s[i] == s[1..][i - 1];
            }
          }
        }
      }
    }
  }

  /** Prepending a character keeps adjacent whitespace out when it does not
      pair with the first character of the rest. */
  lemma NoAdjacentWsCons(x: char, t: string)
    requires NoAdjacentWs(t)
    requires |t| == 0 || !IsWs(x) || !IsWs(t[0])
    ensures NoAdjacentWs([x] + t)
  {
    var s := [x] + t;
    forall k | 0 <= k < |s| - 1 ensures !WsPairAt(s, k) {
      if k > 0 {
        assert !WsPairAt(t, k - 1);
      }
    }
  }

  /** Every slice of a string without adjacent whitespace has none either. */
  lemma NoAdjacentWsSlice(s: string, i: nat, j: nat)
    requires i <= j <= |s|
    requires NoAdjacentWs(s)
    ensures NoAdjacentWs(s[i..j])
  {
    forall k | 0 <= k < j - i - 1 ensures !WsPairAt(s[i..j], k) {
      assert !WsPairAt(s, i + k);
    }
  }
}
