/** Whitespace-separated tokens of a line, with their positions. The PDF
    line patterns of the Kotak and IDFC parsers are sequences of elements
    that contain no whitespace, joined by `\s+`; matching them is matching
    the line's token sequence, and a captured group spanning several tokens
    is the text between the first token's start and the last token's end. */
module Tokens {
  import opened Text

  /** A token `s[start..end]`. */
  datatype Span = Span(start: nat, end: nat)

  /** The end of the run of `\s` starting at `i`. */
  function SkipSpaces(s: string, i: nat): (j: nat)
    requires i <= |s|
    ensures i <= j <= |s| && (j < |s| ==> !IsSpace(s[j]))
    ensures forall k :: i <= k < j ==> IsSpace(s[k])
    decreases |s| - i
  {
    if i < |s| && IsSpace(s[i]) then SkipSpaces(s, i + 1) else i
  }

  /** The end of the token that starts at `i`. */
  function TokenEnd(s: string, i: nat): (j: nat)
    requires i <= |s|
    ensures i <= j <= |s| && (j < |s| ==> IsSpace(s[j]))
    ensures forall k :: i <= k < j ==> !IsSpace(s[k])
    decreases |s| - i
  {
    if i < |s| && !IsSpace(s[i]) then TokenEnd(s, i + 1) else i
  }

  predicate SpanIn(s: string, sp: Span) {
    sp.start < sp.end <= |s| && !IsSpace(s[sp.start]) && !IsSpace(s[sp.end - 1])
  }

  /** Tokens of `s`, in order and apart from each other. */
  predicate WellSpaced(s: string, sp: seq<Span>) {
    (forall k :: 0 <= k < |sp| ==> SpanIn(s, sp[k]))
    && (forall k :: 0 <= k < |sp| - 1 ==> sp[k].end < sp[k + 1].start)
  }

  /** The tokens of `s` from position `i` on, in order. */
  function SpansFrom(s: string, i: nat): (r: seq<Span>)
    requires i <= |s|
    ensures WellSpaced(s, r)
    ensures forall k :: 0 <= k < |r| ==> i <= r[k].start
    decreases |s| - i
  {
    var a := SkipSpaces(s, i);
    if a == |s| then []
    else
      var b := TokenEnd(s, a);
      [Span(a, b)] + SpansFrom(s, b)
  }

  function Spans(s: string): seq<Span> {
    SpansFrom(s, 0)
  }

  /** The text from the start of `first` to the end of `last`. */
  function Between(s: string, first: Span, last: Span): string
    requires SpanIn(s, first) && SpanIn(s, last) && first.start < last.end
  {
    s[first.start..last.end]
  }

  function Token(s: string, sp: Span): string
    requires SpanIn(s, sp)
  {
    s[sp.start..sp.end]
  }

  /** A captured run of tokens starts and ends with a non-space character,
      so trimming it changes nothing. */
  lemma TrimOfBetween(s: string, first: Span, last: Span)
    requires SpanIn(s, first) && SpanIn(s, last) && first.start < last.end
    ensures Trim(Between(s, first, last)) == Between(s, first, last)
  {
    var t := Between(s, first, last);
    assert t[0] == s[first.start] && t[|t| - 1] == s[last.end - 1];
    TrimOfUnpadded(t);
  }

  /** `\d+`, `\d{n}` and `\w{n}` as token tests. */
  predicate NumberToken(t: string) { |t| >= 1 && AllDigits(t) }

  predicate DigitsOf(t: string, lo: nat, hi: nat) {
    lo <= hi <= |t| && forall k :: lo <= k < hi ==> IsDigit(t[k])
  }

  predicate WordCharsOf(t: string, lo: nat, hi: nat) {
    lo <= hi <= |t| && forall k :: lo <= k < hi ==> IsWordChar(t[k])
  }

  /** The texts of a line's tokens, in order. */
  function Words(s: string, r: seq<Span>): (ws: seq<string>)
    requires WellSpaced(s, r)
    ensures |ws| == |r|
  {
    if r == [] then [] else [Token(s, r[0])] + Words(s, r[1..])
  }

  /** Each token ends one space before the next begins. */
  predicate OneSpaceApart(s: string, r: seq<Span>) {
    |r| <= 1 || (r[0].end < |s| && s[r[0].end] == ' ' && r[1].start == r[0].end + 1 && OneSpaceApart(s, r[1..]))
  }

  /** Spans of `ws` laid out from `i` one space apart. */
  function Layout(i: nat, ws: seq<string>): seq<Span>
    decreases |ws|
  {
    if ws == [] then [] else [Span(i, i + |ws[0]|)] + Layout(i + |ws[0]| + 1, ws[1..])
  }

  /** Words joined by single spaces tokenise back into those words, one
      space apart, the first starting where the join does. */
  lemma SpansFromJoin(s: string, i: nat, ws: seq<string>)
    requires i <= |s| && ws != [] && forall k :: 0 <= k < |ws| ==> IsWord(ws[k])
    requires s[i..] == Join(ws, " ")
    ensures WellSpaced(s, SpansFrom(s, i)) && Words(s, SpansFrom(s, i)) == ws
    ensures SpansFrom(s, i)[0].start == i && OneSpaceApart(s, SpansFrom(s, i))
  {
    JoinIsLaidOut(s, i, ws);
    SpansFromIsLayout(s, i, ws);
    LayoutWords(s, i, ws);
  }

  /** `s` from `i` on is the words `ws` one space apart, stated on
      positions: each word a run of non-space characters, followed by one
      space, and the last one ending the text. */
  ghost predicate LaidOut(s: string, i: nat, ws: seq<string>)
    decreases |ws|
  {
    ws != [] && ws[0] != [] && i + |ws[0]| <= |s|
    && (forall k :: i <= k < i + |ws[0]| ==> !IsSpace(s[k]))
    && (if |ws| == 1 then i + |ws[0]| == |s|
        else i + |ws[0]| < |s| && s[i + |ws[0]|] == ' ' && LaidOut(s, i + |ws[0]| + 1, ws[1..]))
  }

  lemma {:induction false} JoinIsLaidOut(s: string, i: nat, ws: seq<string>)
    requires i <= |s| && ws != [] && forall k :: 0 <= k < |ws| ==> IsWord(ws[k])
    requires s[i..] == Join(ws, " ")
    ensures LaidOut(s, i, ws)
    decreases |ws|
  {
    JoinHead(s, i, ws);
    if |ws| > 1 {
      JoinIsLaidOut(s, i + |ws[0]| + 1, ws[1..]);
    }
  }

  lemma {:induction false} SpansFromIsLayout(s: string, i: nat, ws: seq<string>)
    requires LaidOut(s, i, ws)
    ensures SpansFrom(s, i) == Layout(i, ws)
    decreases |ws|
  {
    var b := i + |ws[0]|;
    HeadSpan(s, i, b, |ws| == 1);
    if |ws| > 1 {
      SpansFromIsLayout(s, b + 1, ws[1..]);
    }
  }

  lemma {:induction false} LayoutWords(s: string, i: nat, ws: seq<string>)
    requires i <= |s| && ws != [] && forall k :: 0 <= k < |ws| ==> IsWord(ws[k])
    requires s[i..] == Join(ws, " ")
    ensures WellSpaced(s, Layout(i, ws)) && Words(s, Layout(i, ws)) == ws
    ensures Layout(i, ws)[0].start == i && OneSpaceApart(s, Layout(i, ws))
    decreases |ws|
  {
    var b := i + |ws[0]|;
    JoinHead(s, i, ws);
    if |ws| > 1 {
      LayoutWords(s, b + 1, ws[1..]);
      JoinCons(s, ws, Span(i, b), Layout(b + 1, ws[1..]));
    } else {
      assert Words(s, Layout(i, ws)) == [Token(s, Span(i, b))] + Words(s, []);
    }
  }

  lemma WellSpacedCons(s: string, a: Span, q: seq<Span>)
    requires SpanIn(s, a) && WellSpaced(s, q) && q != [] && a.end < q[0].start
    ensures WellSpaced(s, [a] + q)
  {
    var r := [a] + q;
    forall k | 0 <= k < |r| ensures SpanIn(s, r[k]) {
      if k > 0 { assert r[k] == q[k - 1]; }
    }
    forall k | 0 <= k < |r| - 1 ensures r[k].end < r[k + 1].start {
      if k > 0 { assert r[k] == q[k - 1] && r[k + 1] == q[k]; }
    }
  }

  /** Puts the first word's span in front of the spans of the rest. */
  lemma JoinCons(s: string, ws: seq<string>, a: Span, q: seq<Span>)
    requires |ws| > 1 && SpanIn(s, a) && WellSpaced(s, q) && q != []
    requires Token(s, a) == ws[0] && Words(s, q) == ws[1..]
    requires OneSpaceApart(s, q) && a.end < |s| && s[a.end] == ' ' && q[0].start == a.end + 1
    ensures WellSpaced(s, [a] + q) && Words(s, [a] + q) == ws && OneSpaceApart(s, [a] + q)
  {
    WellSpacedCons(s, a, q);
    assert ([a] + q)[1..] == q;
    assert ws == [ws[0]] + ws[1..];
  }

  /** The `k`th word is the `k`th token's text. */
  lemma {:induction false} WordAt(s: string, r: seq<Span>, k: nat)
    requires WellSpaced(s, r) && k < |r|
    ensures Words(s, r)[k] == Token(s, r[k])
  {
    if k > 0 {
      assert WellSpaced(s, r[1..]) by {
        assert forall j :: 0 <= j < |r| - 1 ==> r[1..][j] == r[j + 1];
      }
      WordAt(s, r[1..], k - 1);
    }
  }

  lemma {:induction false} OneSpaceApartAt(s: string, r: seq<Span>, k: nat)
    requires OneSpaceApart(s, r) && k + 1 < |r|
    ensures r[k].end < |s| && s[r[k].end] == ' ' && r[k + 1].start == r[k].end + 1
  {
    if k > 0 {
      OneSpaceApartAt(s, r[1..], k - 1);
    }
  }

  /** The tokens of a line made of `ws` joined by single spaces, read off
      position by position. */
  lemma JoinedTokens(s: string, ws: seq<string>) returns (sp: seq<Span>)
    requires ws != [] && forall k :: 0 <= k < |ws| ==> IsWord(ws[k])
    requires s == Join(ws, " ")
    ensures sp == Spans(s) && WellSpaced(s, sp) && |sp| == |ws| && sp[0].start == 0
    ensures forall k :: 0 <= k < |ws| ==> Token(s, sp[k]) == ws[k]
    ensures forall k :: 0 <= k < |ws| - 1 ==>
              sp[k].end < |s| && s[sp[k].end] == ' ' && sp[k + 1].start == sp[k].end + 1
  {
    assert s[0..] == s;
    SpansFromJoin(s, 0, ws);
    sp := Spans(s);
    forall k | 0 <= k < |ws| ensures Token(s, sp[k]) == ws[k] {
      WordAt(s, sp, k);
    }
    forall k | 0 <= k < |ws| - 1
      ensures sp[k].end < |s| && s[sp[k].end] == ' ' && sp[k + 1].start == sp[k].end + 1
    {
      OneSpaceApartAt(s, sp, k);
    }
  }

  /** Where the first word of the join ends and the rest begins. */
  lemma JoinHead(s: string, i: nat, ws: seq<string>)
    requires i <= |s| && ws != [] && IsWord(ws[0])
    requires s[i..] == Join(ws, " ")
    ensures var b := i + |ws[0]|;
            && i < b <= |s| && s[i..b] == ws[0]
            && (forall k :: i <= k < b ==> !IsSpace(s[k]))
            && (|ws| == 1 ==> b == |s|)
            && (|ws| > 1 ==> b + 1 <= |s| && s[b] == ' ' && s[b + 1..] == Join(ws[1..], " "))
  {
    var w := ws[0];
    var b := i + |w|;
    if |ws| == 1 {
      assert s[i..] == w;
    } else {
      assert s[i..] == w + " " + Join(ws[1..], " ");
      assert s[b] == s[i..][|w|];
      assert s[b + 1..] == s[i..][|w| + 1..];
    }
    assert s[i..b] == s[i..][..|w|];
    forall k | i <= k < b
      ensures !IsSpace(s[k])
    {
      assert s[k] == w[k - i];
    }
  }

  /** A run of non-space characters from `i` to `b`, followed by the end of
      the text or by one space, is the first token from `i`. */
  lemma HeadSpan(s: string, i: nat, b: nat, last: bool)
    requires i < b <= |s| && forall k :: i <= k < b ==> !IsSpace(s[k])
    requires last ==> b == |s|
    requires !last ==> b < |s| && s[b] == ' '
    ensures last ==> SpansFrom(s, i) == [Span(i, b)]
    ensures !last ==> SpansFrom(s, i) == [Span(i, b)] + SpansFrom(s, b + 1)
  {
    assert TokenEnd(s, i) == b;
    assert SkipSpaces(s, i) == i;
    if last {
      assert SpansFrom(s, b) == [];
    } else {
      SpansFromSpace(s, b);
    }
  }

  /** A word followed by one space is the first token from its start. */
  lemma WordThenSpace(s: string, i: nat, w: string)
    requires IsWord(w) && i + |w| < |s| && s[i..i + |w|] == w && s[i + |w|] == ' '
    ensures SpansFrom(s, i) == [Span(i, i + |w|)] + SpansFrom(s, i + |w| + 1)
  {
    forall k | i <= k < i + |w| ensures !IsSpace(s[k]) {
      assert s[k] == w[k - i];
    }
    HeadSpan(s, i, i + |w|, false);
  }

  /** A token begins at a non-space character. */
  lemma SpansFromNonSpace(s: string, i: nat)
    requires i < |s| && !IsSpace(s[i])
    ensures SpansFrom(s, i) != [] && SpansFrom(s, i)[0].start == i
  {
    assert SkipSpaces(s, i) == i;
  }

  /** Leading whitespace does not change the tokens. */
  lemma SpansFromSpace(s: string, i: nat)
    requires i < |s| && IsSpace(s[i])
    ensures SpansFrom(s, i) == SpansFrom(s, i + 1)
  {
    assert SkipSpaces(s, i) == SkipSpaces(s, i + 1);
  }

  /** The text of three consecutive tokens one space apart. */
  lemma BetweenOfThree(s: string, a: Span, b: Span, c: Span)
    requires SpanIn(s, a) && SpanIn(s, b) && SpanIn(s, c)
    requires b.start == a.end + 1 && c.start == b.end + 1 && s[a.end] == ' ' && s[b.end] == ' '
    ensures Between(s, a, c) == Token(s, a) + " " + Token(s, b) + " " + Token(s, c)
  {
    var t := Between(s, a, c);
    assert t == s[a.start..a.end] + s[a.end..b.start] + s[b.start..b.end] + s[b.end..c.start] + s[c.start..c.end];
    assert s[a.end..b.start] == " " && s[b.end..c.start] == " ";
  }
}
