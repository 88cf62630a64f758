/** The click handler on every submit control: before the form is sent, each
    text input's value is rewritten. A non-empty value of the input named
    `postcode` is upper-cased, its whitespace runs of two or more characters
    become one space, and it is trimmed; every other value is only trimmed. */
module SubmitNormalization {
  import opened Seqs
  import opened Whitespace
  import opened Trimming
  import opened UpperCase
  import opened RunCollapse

  datatype Option<T> = None | Some(value: T)

  /** A text input as the handler sees it: its `name` attribute (absent when
      the markup gives none) and its current value. */
  datatype TextInput = TextInput(name: Option<string>, value: string)

  const PostcodeName: string := "postcode"

  /** The handler's test: the value is truthy (non-empty) and the name
      attribute is exactly `postcode`. */
  predicate IsPostcodeCase(name: Option<string>, value: string) {
    |value| > 0 && name == Some(PostcodeName)
  }

  /** The new value the handler gives one input. */
  function Normalize(name: Option<string>, value: string): (r: string)
    ensures NoEdgeWs(r)
    ensures |r| <= |value|
    ensures |value| == 0 ==> r == []
  {
    if IsPostcodeCase(name, value) then Trim(CollapseRuns(ToUpper(value)))
    else Trim(value)
  }

  /** The values the handler leaves as they are: no whitespace at the edges,
      and for a postcode also no adjacent whitespace and no lower-case letter. */
  predicate IsNormal(name: Option<string>, value: string) {
    if IsPostcodeCase(name, value) then
      NoEdgeWs(value) && NoAdjacentWs(value) && NoLowerAscii(value)
    else
      NoEdgeWs(value)
  }

  /** Outside the postcode case the value is trimmed and nothing else: of any
      string with whitespace `p` and `q` around a core `t` that has none at its
      edges, exactly `t` is kept, letter case and interior included. */
  lemma OtherValueTrimmed(name: Option<string>, p: string, t: string, q: string)
    requires !IsPostcodeCase(name, p + t + q)
    requires AllWs(p) && AllWs(q) && NoEdgeWs(t)
    ensures Normalize(name, p + t + q) == t
  {
    TrimUnique(p, t, q);
  }

  /** A postcode value never keeps two adjacent whitespace characters. */
  lemma PostcodeNoAdjacentWs(value: string)
    ensures NoAdjacentWs(Normalize(Some(PostcodeName), value))
  {
    if |value| > 0 {
      var c := CollapseRuns(ToUpper(value));
      var a := LeadingWs(c);
      CollapseRunsNoAdjacentWs(ToUpper(value));
      NoAdjacentWsSlice(c, a, a + |Trim(c)|);
    }
  }

  /** A postcode value never keeps a lower-case ASCII letter. */
  lemma PostcodeNoLowerAscii(value: string)
    ensures NoLowerAscii(Normalize(Some(PostcodeName), value))
  {
    if |value| > 0 {
      var u := ToUpper(value);
      var c := CollapseRuns(u);
      var a := LeadingWs(c);
      CollapseRunsChars(u);
      SliceMembers(c, a, a + |Trim(c)|);
    }
  }

  /** No visible character is dropped, added or moved: the non-whitespace
      characters of the result are those of the input, upper-cased for a
      postcode and as they were otherwise. */
  lemma NormalizeKeepsVisible(name: Option<string>, value: string)
    ensures NonWs(Normalize(name, value)) ==
      if IsPostcodeCase(name, value) then ToUpper(NonWs(value)) else NonWs(value)
  {
    if IsPostcodeCase(name, value) {
      var u := ToUpper(value);
      TrimKeepsNonWs(CollapseRuns(u));
      CollapseRunsKeepsNonWs(u);
      ToUpperNonWs(value);
    } else {
      TrimKeepsNonWs(value);
    }
  }

  /** How a postcode's interior whitespace fares when `x` ends and `y` starts
      with a visible character: the pieces are normalised on their own and the
      whitespace `w` between them becomes `image`. */
  lemma PostcodeSplit(x: string, w: string, y: string, image: string)
    requires |x| > 0 && !IsWs(x[|x| - 1])
    requires |y| > 0 && !IsWs(y[0])
    requires CollapseRuns(ToUpper(x) + w + ToUpper(y)) ==
             CollapseRuns(ToUpper(x)) + image + CollapseRuns(ToUpper(y))
    requires ToUpper(w) == w
    ensures Normalize(Some(PostcodeName), x + w + y) ==
            Normalize(Some(PostcodeName), x) + image + Normalize(Some(PostcodeName), y)
  {
    var ux, uy := ToUpper(x), ToUpper(y);
    ToUpperConcat(x + w, y);
    ToUpperConcat(x, w);
    ToUpperEdges(x);
    ToUpperEdges(y);
    CollapseRunsLast(ux);
    TrimAroundInterior(CollapseRuns(ux), image, CollapseRuns(uy));
  }

  /** A lone whitespace character inside a postcode is kept as it is: a tab
      between two visible characters stays a tab. */
  lemma PostcodeLoneWsKept(x: string, c: char, y: string)
    requires |x| > 0 && !IsWs(x[|x| - 1])
    requires |y| > 0 && !IsWs(y[0])
    requires IsWs(c)
    ensures Normalize(Some(PostcodeName), x + [c] + y) ==
            Normalize(Some(PostcodeName), x) + [c] + Normalize(Some(PostcodeName), y)
  {
    var ux, uy := ToUpper(x), ToUpper(y);
    ToUpperEdges(x);
    ToUpperEdges(y);
    LoneWsKept(ux, c, uy);
    assert ToUpper([c]) == [c];
    PostcodeSplit(x, [c], y, [c]);
  }

  /** A run of two or more whitespace characters inside a postcode becomes a
      single space. */
  lemma PostcodeRunCollapsed(x: string, w: string, y: string)
    requires |x| > 0 && !IsWs(x[|x| - 1])
    requires |y| > 0 && !IsWs(y[0])
    requires |w| >= 2 && AllWs(w)
    ensures Normalize(Some(PostcodeName), x + w + y) ==
            Normalize(Some(PostcodeName), x) + [' '] + Normalize(Some(PostcodeName), y)
  {
    var ux, uy := ToUpper(x), ToUpper(y);
    ToUpperEdges(x);
    ToUpperEdges(y);
    LongRunCollapsed(ux, w, uy);
    assert ToUpper(w) == w;
    PostcodeSplit(x, w, y, [' ']);
  }

  /** Whatever the handler produces is normal. */
  lemma NormalizeIsNormal(name: Option<string>, value: string)
    ensures IsNormal(name, Normalize(name, value))
  {
    var r := Normalize(name, value);
    if IsPostcodeCase(name, r) {
      PostcodeNoAdjacentWs(value);
      PostcodeNoLowerAscii(value);
    }
  }

  /** The handler leaves a value unchanged exactly when it is normal. */
  lemma NormalizeFixedPoint(name: Option<string>, value: string)
    ensures Normalize(name, value) == value <==> IsNormal(name, value)
  {
    NormalizeIsNormal(name, value);
    TrimFixedPoint(value);
    if IsPostcodeCase(name, value) && IsNormal(name, value) {
      ToUpperFixedPoint(value);
      CollapseRunsFixedPoint(value);
    }
  }

  /** Submitting twice changes nothing the first submit did not. */
  lemma NormalizeIdempotent(name: Option<string>, value: string)
    ensures Normalize(name, Normalize(name, value)) == Normalize(name, value)
  {
    NormalizeIsNormal(name, value);
    NormalizeFixedPoint(name, Normalize(name, value));
  }

  /** One input after the handler: same name, normalised value. */
  function NormalizeInput(t: TextInput): TextInput {
    t.(value := Normalize(t.name, t.value))
  }

  /** The handler's pass over every text input on the page, in order: the
      list keeps its length and each input is rewritten on its own, from its
      own name and value only. */
  function NormalizeAll(inputs: seq<TextInput>): (out: seq<TextInput>)
    ensures |out| == |inputs|
    ensures forall i :: 0 <= i < |inputs| ==>
      out[i].name == inputs[i].name && out[i].value == Normalize(inputs[i].name, inputs[i].value)
  {
    if |inputs| == 0 then [] else [NormalizeInput(inputs[0])] + NormalizeAll(inputs[1..])
  }

  /** After the pass every input holds a normal value, so a second pass is a
      no-op. */
  lemma NormalizeAllIdempotent(inputs: seq<TextInput>)
    ensures NormalizeAll(NormalizeAll(inputs)) == NormalizeAll(inputs)
  {
    var once := NormalizeAll(inputs);
    var twice := NormalizeAll(once);
    forall i | 0 <= i < |inputs| ensures twice[i] == once[i] {
      NormalizeIdempotent(inputs[i].name, inputs[i].value);
    }
  }

  lemma ExamplePlainValue()
    ensures Normalize(Some("name"), "  hello  ") == "hello"
  {
    assert "  hello  " == "  " + "hello" + "  ";
    OtherValueTrimmed(Some("name"), "  ", "hello", "  ");
  }

  /** A postcode with no whitespace at all is only upper-cased. */
  lemma PostcodeVisibleOnly(v: string)
    requires |v| > 0
    requires forall i :: 0 <= i < |v| ==> !IsWs(v[i])
    ensures Normalize(Some(PostcodeName), v) == ToUpper(v)
  {
    var u := ToUpper(v);
    assert NoAdjacentWs(u) by {
      forall k | 0 <= k < |u| - 1 ensures !WsPairAt(u, k) {
        assert !IsWs(v[k]);
      }
    }
    CollapseRunsFixedPoint(u);
    TrimFixedPoint(u);
  }

  /** A postcode made of whitespace only is emptied. */
  lemma PostcodeAllWs(w: string)
    requires AllWs(w)
    ensures Normalize(Some(PostcodeName), w) == []
  {
    if |w| > 0 {
      WsIsUpper(w);
      CollapseRunsAllWs(w);
      var c := CollapseRuns(w);
      TrimUnique(c, [], []);
      assert c + [] + [] == c;
    }
  }

  /** Whitespace of any length around a postcode is dropped without touching
      what lies between. */
  lemma PostcodeOuterWs(p: string, t: string, q: string)
    requires AllWs(p) && AllWs(q)
    requires NoEdgeWs(t)
    ensures Normalize(Some(PostcodeName), p + t + q) == Normalize(Some(PostcodeName), t)
  {
    if |t| == 0 {
      assert p + t + q == p + q;
      assert AllWs(p + q) by {
        forall i | 0 <= i < |p + q| ensures IsWs((p + q)[i]) {
          if i >= |p| {
            assert (p + q)[i] == q[i - |p|];
          }
        }
      }
      PostcodeAllWs(p + q);
      return;
    }
    var ut := ToUpper(t);
    var c := CollapseRuns(ut);
    assert ToUpper(p + t + q) == p + ut + q by {
      ToUpperConcat(p + t, q);
      ToUpperConcat(p, t);
      WsIsUpper(p);
      WsIsUpper(q);
    }
    ToUpperEdges(t);
    assert CollapseRuns(p + ut + q) == CollapseRuns(p) + c + CollapseRuns(q) by {
      CollapseRunsConcat(p + ut, q);
      CollapseRunsConcat(p, ut);
    }
    CollapseRunsAllWs(p);
    CollapseRunsAllWs(q);
    CollapseRunsLast(ut);
    TrimUnique(CollapseRuns(p), c, CollapseRuns(q));
    TrimFixedPoint(c);
  }

  lemma ExampleVisibleAb1()
    ensures Normalize(Some(PostcodeName), "ab1") == "AB1"
  {
    PostcodeVisibleOnly("ab1");
  }

  lemma ExampleVisible2cd()
    ensures Normalize(Some(PostcodeName), "2cd") == "2CD"
  {
    PostcodeVisibleOnly("2cd");
  }

  lemma ExamplePostcode()
    ensures Normalize(Some(PostcodeName), "  " + ("ab1" + "  " + "2cd") + "  ") == "AB1" + " " + "2CD"
  {
    PostcodeOuterWs("  ", "ab1" + "  " + "2cd", "  ");
    PostcodeRunCollapsed("ab1", "  ", "2cd");
    ExampleVisibleAb1();
    ExampleVisible2cd();
  }

  lemma ExampleLoneTab()
    ensures Normalize(Some(PostcodeName), "ab1" + "\t" + "2cd") == "AB1" + "\t" + "2CD"
  {
    PostcodeLoneWsKept("ab1", '\t', "2cd");
    ExampleVisibleAb1();
    ExampleVisible2cd();
  }
}
