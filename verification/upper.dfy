/** `String.prototype.toUpperCase`, restricted to the ASCII letters: `a`-`z`
    become `A`-`Z` and every other character is left alone. */
module UpperCase {
  import opened Whitespace

  predicate IsLowerAscii(c: char) {
    'a' <= c <= 'z'
  }

  /** No lower-case ASCII letter occurs in `s`. */
  predicate NoLowerAscii(s: string) {
    forall c :: c in s ==> !IsLowerAscii(c)
  }

  /** Upper-cases one character: the letter's code point moves from the
      lower-case block to the upper-case one; anything else is kept. */
  function UpperChar(c: char): (u: char)
    ensures !IsLowerAscii(u)
    ensures IsLowerAscii(c) ==> 'A' <= u <= 'Z' && u as int - 'A' as int == c as int - 'a' as int
    ensures !IsLowerAscii(c) ==> u == c
    ensures IsWs(u) <==> IsWs(c)
  {
    if IsLowerAscii(c) then (c as int - 'a' as int + 'A' as int) as char else c
  }

  /** Upper-cases a string character by character: each lower-case ASCII
      letter becomes its capital, every other character stays where it is. */
  function ToUpper(s: string): (r: string)
    ensures |r| == |s|
    ensures NoLowerAscii(r)
    ensures forall i :: 0 <= i < |s| ==> (IsWs(r[i]) <==> IsWs(s[i]))
    ensures forall i :: 0 <= i < |s| ==>
      (IsLowerAscii(s[i]) ==> r[i] as int == s[i] as int - 'a' as int + 'A' as int) &&
      (!IsLowerAscii(s[i]) ==> r[i] == s[i])
  {
    seq(|s|, i requires 0 <= i < |s| => UpperChar(s[i]))
  }

  lemma ToUpperConcat(a: string, b: string)
    ensures ToUpper(a + b) == ToUpper(a) + ToUpper(b)
  {
  }

  /** A string is its own upper-case form exactly when it holds no lower-case
      ASCII letter. */
  lemma ToUpperFixedPoint(s: string)
    ensures ToUpper(s) == s <==> NoLowerAscii(s)
  {
    if NoLowerAscii(s) {
      forall i | 0 <= i < |s| ensures ToUpper(s)[i] == s[i] {
        assert s[i] in s;
      }
    }
  }

  /** Upper-casing and then keeping the visible characters is the same as
      keeping the visible characters and then upper-casing them. */
  lemma {:induction false} ToUpperNonWs(s: string)
    ensures NonWs(ToUpper(s)) == ToUpper(NonWs(s))
  {
    if |s| > 0 {
      var u := ToUpper(s);
      assert u[1..] == ToUpper(s[1..]);
      ToUpperNonWs(s[1..]);
      var head := if IsWs(s[0]) then [] else [s[0]];
      assert NonWs(s) == head + NonWs(s[1..]);
      ToUpperConcat(head, NonWs(s[1..]));
    }
  }

  /** Upper-casing keeps whether the first and the last character are whitespace. */
  lemma ToUpperEdges(x: string)
    requires |x| > 0
    ensures |ToUpper(x)| == |x|
    ensures IsWs(ToUpper(x)[0]) <==> IsWs(x[0])
    ensures IsWs(ToUpper(x)[|x| - 1]) <==> IsWs(x[|x| - 1])
  {
  }

  /** Whitespace is already upper-case. */
  lemma WsIsUpper(w: string)
    requires AllWs(w)
    ensures ToUpper(w) == w
  {
    forall c | c in w ensures !IsLowerAscii(c) {
      var k :| 0 <= k < |w| && w[k] == c;
    }
    ToUpperFixedPoint(w);
  }
}
