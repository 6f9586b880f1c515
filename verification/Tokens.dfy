/** The whitespace splitter behind PIPER_ARGS and PIPER_SINK: what the tokens of a string are. */
module Tokens {
  import opened Fifo

  /** `isspace` in the C locale: space, \t, \n, \v, \f and \r. */
  predicate IsSpace(c: char) {
    c == ' ' || 9 <= c as int <= 13
  }

  /** First index from `i` on that is no whitespace, or the end. */
  function SkipSpace(s: CString, i: nat): (j: nat)
    requires i <= |s|
    ensures i <= j <= |s|
    ensures forall k :: i <= k < j ==> IsSpace(s[k])
    ensures j < |s| ==> !IsSpace(s[j])
    decreases |s| - i
  {
    if i < |s| && IsSpace(s[i]) then SkipSpace(s, i + 1) else i
  }

  /** First index from `i` on that is whitespace, or the end. */
  function SkipWord(s: CString, i: nat): (j: nat)
    requires i <= |s|
    ensures i <= j <= |s|
    ensures forall k :: i <= k < j ==> !IsSpace(s[k])
    ensures j < |s| ==> IsSpace(s[j])
    decreases |s| - i
  {
    if i < |s| && !IsSpace(s[i]) then SkipWord(s, i + 1) else i
  }

  /** The tokens from index `i` on, as index ranges. */
  function Spans(s: CString, i: nat): seq<(nat, nat)>
    requires i <= |s|
    decreases |s| - i
  {
    var a := SkipSpace(s, i);
    if a == |s| then []
    else var b := SkipWord(s, a); assert b > a; [(a, b)] + Spans(s, b)
  }

  predicate Within(s: CString, spans: seq<(nat, nat)>) {
    forall k :: 0 <= k < |spans| ==> spans[k].0 <= spans[k].1 <= |s|
  }

  function Cuts(s: CString, spans: seq<(nat, nat)>): (ts: seq<CString>)
    requires Within(s, spans)
    ensures |ts| == |spans|
  {
    seq(|spans|, k requires 0 <= k < |spans| => s[spans[k].0..spans[k].1])
  }

  lemma {:induction false} SpansWithin(s: CString, i: nat)
    requires i <= |s|
    ensures Within(s, Spans(s, i))
    decreases |s| - i
  {
    var a := SkipSpace(s, i);
    if a < |s| {
      assert SkipWord(s, a) > a;
      SpansWithin(s, SkipWord(s, a));
    }
  }

  function TokensFrom(s: CString, i: nat): seq<CString>
    requires i <= |s|
  {
    SpansWithin(s, i);
    Cuts(s, Spans(s, i))
  }

  function TokensOf(s: CString): seq<CString> {
    TokensFrom(s, 0)
  }

  /** One token at a time. */
  lemma TokensStep(s: CString, i: nat)
    requires i <= |s|
    ensures var a := SkipSpace(s, i);
            if a == |s| then TokensFrom(s, i) == []
            else SkipWord(s, a) > a && TokensFrom(s, i) == [s[a..SkipWord(s, a)]] + TokensFrom(s, SkipWord(s, a))
  {
    var a := SkipSpace(s, i);
    SpansWithin(s, i);
    if a < |s| {
      SpansWithin(s, SkipWord(s, a));
    }
  }

  // ---- the tokens are the maximal runs of non-whitespace

  /** A run of non-whitespace that cannot be extended to either side. */
  predicate MaximalRun(s: CString, a: nat, b: nat) {
    && a < b <= |s|
    && (forall k :: a <= k < b ==> !IsSpace(s[k]))
    && (a == 0 || IsSpace(s[a - 1]))
    && (b == |s| || IsSpace(s[b]))
  }

  lemma {:induction false} SpansAreMaximal(s: CString, i: nat, k: nat)
    requires i <= |s| && (i == 0 || i == |s| || IsSpace(s[i])) && k < |Spans(s, i)|
    ensures Spans(s, i)[k].0 >= i && MaximalRun(s, Spans(s, i)[k].0, Spans(s, i)[k].1)
    decreases k
  {
    var x := SkipSpace(s, i);
    var y := SkipWord(s, x);
    if k > 0 {
      SpansAreMaximal(s, y, k - 1);
    }
  }

  lemma {:induction false} SpansInOrder(s: CString, i: nat, k: nat, l: nat)
    requires i <= |s| && (i == 0 || i == |s| || IsSpace(s[i])) && k < l < |Spans(s, i)|
    ensures Spans(s, i)[k].1 < Spans(s, i)[l].0
    decreases k
  {
    var y := SkipWord(s, SkipSpace(s, i));
    if k > 0 {
      SpansInOrder(s, y, k - 1, l - 1);
    } else {
      SpansAreMaximal(s, y, l - 1);
      var x' := Spans(s, y)[l - 1].0;
      assert !IsSpace(s[x']);
    }
  }

  lemma {:induction false} SpansAreAll(s: CString, i: nat, a: nat, b: nat)
    requires i <= |s| && (i == 0 || i == |s| || IsSpace(s[i])) && a >= i && MaximalRun(s, a, b)
    ensures (a, b) in Spans(s, i)
    decreases |s| - i
  {
    var x := SkipSpace(s, i);
    assert !IsSpace(s[a]);
    var y := SkipWord(s, x);
    assert Spans(s, i) == [(x, y)] + Spans(s, y);
    OneRunAt(s, i, x, y, a, b);
    if a >= y {
      SpansAreAll(s, y, a, b);
    }
  }

  /** A maximal run from `i` on is the first one, or lies behind it. */
  lemma OneRunAt(s: CString, i: nat, x: nat, y: nat, a: nat, b: nat)
    requires i <= x < y <= |s| && (forall k :: i <= k < x ==> IsSpace(s[k])) && (y == |s| || IsSpace(s[y]))
    requires (forall k :: x <= k < y ==> !IsSpace(s[k])) && a >= i && MaximalRun(s, a, b)
    ensures (a == x && b == y) || a >= y
  {
    assert !IsSpace(s[a]) && (a > 0 ==> IsSpace(s[a - 1]));
    assert (b < |s| ==> IsSpace(s[b])) && (y < |s| ==> IsSpace(s[y]));
  }

  /** The tokens of a string are exactly the maximal runs of non-whitespace, in order and apart. */
  lemma TokensAreMaximalRuns(s: CString)
    ensures Within(s, Spans(s, 0)) && TokensOf(s) == Cuts(s, Spans(s, 0))
    ensures forall a: nat, b: nat :: MaximalRun(s, a, b) <==> (a, b) in Spans(s, 0)
    ensures forall k, l :: 0 <= k < l < |Spans(s, 0)| ==> Spans(s, 0)[k].1 < Spans(s, 0)[l].0
  {
    SpansWithin(s, 0);
    hide Spans, MaximalRun;
    var spans := Spans(s, 0);
    forall a: nat, b: nat ensures MaximalRun(s, a, b) <==> (a, b) in spans {
      if MaximalRun(s, a, b) {
        SpansAreAll(s, 0, a, b);
      }
      if (a, b) in spans {
        var k :| 0 <= k < |spans| && spans[k] == (a, b);
        SpansAreMaximal(s, 0, k);
      }
    }
    forall k, l | 0 <= k < l < |spans| ensures spans[k].1 < spans[l].0 {
      SpansInOrder(s, 0, k, l);
    }
  }

  // ---- round trip

  function Join(ts: seq<CString>): CString {
    if ts == [] then "" else if |ts| == 1 then ts[0] else ts[0] + " " + Join(ts[1..])
  }

  predicate IsToken(t: CString) {
    t != "" && forall k :: 0 <= k < |t| ==> !IsSpace(t[k])
  }

  lemma {:induction false} SkipShift(u: CString, v: CString, i: nat)
    requires i <= |v|
    ensures SkipSpace(u + v, |u| + i) == |u| + SkipSpace(v, i)
    ensures SkipWord(u + v, |u| + i) == |u| + SkipWord(v, i)
    decreases |v| - i
  {
    if i < |v| {
      SkipShift(u, v, i + 1);
      assert (u + v)[|u| + i] == v[i];
    }
  }

  lemma {:induction false} TokensShift(u: CString, v: CString, i: nat)
    requires i <= |v|
    ensures TokensFrom(u + v, |u| + i) == TokensFrom(v, i)
    decreases |v| - i
  {
    hide TokensFrom, SkipSpace, SkipWord;
    TokensStep(v, i);
    TokensStep(u + v, |u| + i);
    SkipShift(u, v, i);
    var a := SkipSpace(v, i);
    if a < |v| {
      SkipShift(u, v, a);
      var b := SkipWord(v, a);
      assert (u + v)[|u| + a..|u| + b] == v[a..b];
      TokensShift(u, v, b);
    }
  }

  lemma FirstWord(t: CString, rest: CString)
    requires IsToken(t) && (rest == "" || IsSpace(rest[0]))
    ensures SkipSpace(t + rest, 0) == 0 && SkipWord(t + rest, 0) == |t|
  {
    var s := t + rest;
    assert !IsSpace(s[0]);
    var j := SkipWord(s, 0);
    assert forall k :: 0 <= k < |t| ==> !IsSpace(s[k]);
    assert j < |s| ==> IsSpace(s[j]);
    assert |t| < |s| ==> IsSpace(s[|t|]);
  }

  lemma LeadingSpace(v: CString)
    ensures TokensFrom(" " + v, 0) == TokensFrom(v, 0)
  {
    hide TokensFrom;
    SkipShift(" ", v, 0);
    TokensShift(" ", v, 0);
    TokensStep(" " + v, 0);
    TokensStep(" " + v, 1);
    assert SkipSpace(" " + v, 0) == SkipSpace(" " + v, 1);
  }

  lemma TokensHead(t: CString, rest: CString)
    requires IsToken(t) && (rest == "" || IsSpace(rest[0]))
    ensures TokensOf(t + rest) == [t] + TokensOf(rest)
  {
    FirstWord(t, rest);
    TokensStep(t + rest, 0);
    TokensShift(t, rest, 0);
    hide TokensFrom, IsToken;
    assert (t + rest)[0..|t|] == t;
  }

  lemma NoTokens()
    ensures TokensOf("") == []
  {
    TokensStep("", 0);
  }

  /** Splitting the space-separated join of non-empty, whitespace-free tokens gives the tokens. */
  lemma {:induction false} SplitJoin(ts: seq<CString>)
    requires forall k :: 0 <= k < |ts| ==> IsToken(ts[k])
    ensures TokensOf(Join(ts)) == ts
  {
    hide TokensOf, IsToken;
    if |ts| <= 1 {
      NoTokens();
      if |ts| == 1 {
        TokensHead(ts[0], "");
        assert ts[0] + "" == ts[0] && ts == [ts[0]];
      }
    } else {
      var rest := Join(ts[1..]);
      SplitJoin(ts[1..]);
      TokensHead(ts[0], " " + rest);
      LeadingSpaceOf(rest);
      assert Join(ts) == ts[0] + (" " + rest);
      assert ts == [ts[0]] + ts[1..];
    }
  }

  lemma LeadingSpaceOf(v: CString)
    ensures TokensOf(" " + v) == TokensOf(v)
  {
    hide TokensFrom;
    LeadingSpace(v);
  }

  lemma {:induction false} TokensAreTokens(s: CString, i: nat)
    requires i <= |s|
    ensures forall k :: 0 <= k < |TokensFrom(s, i)| ==> IsToken(TokensFrom(s, i)[k])
    decreases |s| - i
  {
    hide TokensFrom;
    TokensStep(s, i);
    var a := SkipSpace(s, i);
    if a < |s| {
      TokensAreTokens(s, SkipWord(s, a));
    }
  }

  // ---- splitting at spaces only, as the repository's README describes it

  /** The first space from `i` on, or the end. */
  function WordEnd(s: CString, i: nat): (j: nat)
    requires i <= |s|
    ensures i <= j <= |s| && (i < |s| && s[i] != ' ' ==> i < j)
    decreases |s| - i
  {
    if i < |s| && s[i] != ' ' then WordEnd(s, i + 1) else i
  }

  /** The words between spaces, from `i` on. */
  function OnSpaces(s: CString, i: nat): seq<CString>
    requires i <= |s|
    decreases |s| - i
  {
    if i == |s| then []
    else if s[i] == ' ' then OnSpaces(s, i + 1)
    else [s[i..WordEnd(s, i)]] + OnSpaces(s, WordEnd(s, i))
  }

  /** Tab, newline, vertical tab, form feed and carriage return. */
  predicate OtherSpace(c: char) { 9 <= c as int <= 13 }

  /** The code splits as described exactly when no whitespace but the space occurs. */
  lemma SplitsOnSpaces(s: CString)
    ensures TokensOf(s) == OnSpaces(s, 0) <==> forall k :: 0 <= k < |s| ==> !OtherSpace(s[k])
  {
    hide TokensFrom, OtherSpace;
    if k :| 0 <= k < |s| && OtherSpace(s[k]) {
      var w := WordOf(s, 0, k);
      var x := OtherInWord(s[k], OnSpaces(s, 0)[w]);
      TokensAreTokens(s, 0);
      assert w < |TokensOf(s)| ==> IsToken(TokensFrom(s, 0)[w]);
    } else {
      SameSplit(s, 0);
    }
  }

  lemma OtherInWord(c: char, t: CString) returns (x: nat)
    requires OtherSpace(c) && c in t
    ensures x < |t| && IsSpace(t[x])
  {
    x :| x < |t| && t[x] == c;
  }

  /** A character that is no space lies in a word. */
  lemma {:induction false} WordOf(s: CString, i: nat, k: nat) returns (w: nat)
    requires i <= k < |s| && OtherSpace(s[k])
    ensures w < |OnSpaces(s, i)| && s[k] in OnSpaces(s, i)[w]
    decreases |s| - i
  {
    var j := WordEnd(s, i);
    if s[i] == ' ' {
      w := WordOf(s, i + 1, k);
    } else if k < j {
      w := 0;
      assert s[i..j][k - i] == s[k];
    } else {
      w := WordOf(s, j, k);
      w := w + 1;
    }
  }

  lemma {:induction false} SameSplit(s: CString, i: nat)
    requires i <= |s| && forall k :: 0 <= k < |s| ==> !OtherSpace(s[k])
    ensures TokensFrom(s, i) == OnSpaces(s, i)
    decreases |s| - i
  {
    hide TokensFrom;
    TokensStep(s, i);
    if i < |s| {
      if s[i] == ' ' {
        TokensStep(s, i + 1);
        SameSplit(s, i + 1);
      } else {
        SameEnd(s, i);
        SameSplit(s, WordEnd(s, i));
      }
    }
  }

  lemma {:induction false} SameEnd(s: CString, i: nat)
    requires i <= |s| && forall k :: 0 <= k < |s| ==> !OtherSpace(s[k])
    ensures SkipWord(s, i) == WordEnd(s, i) && (i < |s| && s[i] != ' ' ==> SkipSpace(s, i) == i)
    decreases |s| - i
  {
    if i < |s| {
      SameEnd(s, i + 1);
    }
  }

  /** A tab separates arguments, too. */
  lemma TabSplits()
    ensures TokensOf("a\tb") == ["a", "b"] && OnSpaces("a\tb", 0) == ["a\tb"]
  {
    var s: CString := "a\tb";
    assert SkipSpace(s, 0) == 0 && SkipWord(s, 0) == 1;
    assert SkipSpace(s, 1) == 2 && SkipWord(s, 2) == 3 && SkipSpace(s, 3) == 3;
    TokensStep(s, 0);
    TokensStep(s, 1);
    TokensStep(s, 3);
    assert s[0..1] == "a" && s[2..3] == "b" && s[0..3] == s;
    assert WordEnd(s, 3) == 3 && WordEnd(s, 2) == 3 && WordEnd(s, 1) == 3 && WordEnd(s, 0) == 3;
    assert OnSpaces(s, 3) == [];
  }
}
