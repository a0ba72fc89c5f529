/** Quotes, commas and parentheses in the wrong place, and spaces inside parentheses. */
module TagMisuse {
  import opened Sequences
  import opened TagTokenizer
  import opened TagPrinter
  import opened TagRescan

  /** Text between which and what follows a new token begins: nothing yet, or something that ends with a space. */
  predicate Ended(p: string, toks: seq<RawToken>) {
    && (p != "" ==> !IsSpace(p[0]) && p[|p| - 1] == ' ')
    && Feed(p, Fresh([], 0)) == Ok(Fresh(toks, |p|))
  }

  predicate AllPlain(w: string) {
    forall c :: c in w ==> Plain(c)
  }

  lemma {:induction false} RightTrimmed(s: string, n: nat)
    requires 0 < n <= |s| && !IsSpace(s[n - 1])
    ensures |TrimRight(s)| >= n && TrimRight(s) == s[..|TrimRight(s)|]
    decreases |s|
  {
    if IsSpace(s[|s| - 1]) {
      RightTrimmed(s[..|s| - 1], n);
    }
  }

  /** Trimming takes nothing of a front that neither begins nor ends with white space. */
  lemma TrimKeepsFront(front: string, rest: string) returns (rest': string)
    requires front != "" && !IsSpace(front[0]) && !IsSpace(front[|front| - 1])
    ensures TrimSpace(front + rest) == front + rest'
  {
    var s := front + rest;
    RightTrimmed(s, |front|);
    var t := TrimRight(s);
    rest' := t[|front|..];
    assert t[..|front|] == front;
  }

  /** The scan of a tag whose front is kept goes on behind an ended text. */
  lemma ScanFrom(p: string, bad: string, rest: string, toks: seq<RawToken>) returns (rest': string)
    requires Ended(p, toks) && bad != "" && !IsSpace(bad[0]) && !IsSpace(bad[|bad| - 1])
    ensures Split(p + bad + rest) == Scan(bad + rest', Fresh(toks, |p|))
  {
    hide Scan, Feed;
    rest' := TrimKeepsFront(p + bad, rest);
    Assoc(p, bad, rest');
    FeedAppend(p, bad + rest', Fresh([], 0));
  }

  lemma PlainFeeds(w: string, tail: string, toks: seq<RawToken>, at: nat)
    requires AllPlain(w)
    ensures Scan(w + tail, Fresh(toks, at)) == Scan(tail, Begun(w, toks, at))
  {
    hide Scan;
    if w == "" {
      assert w + tail == tail;
    } else {
      ScanPlain(w, tail, Fresh(toks, at));
    }
  }

  /** The scanner after a plain word, or where it was if the word is empty. */
  function Begun(w: string, toks: seq<RawToken>, at: nat): Scanner {
    if w == "" then Fresh(toks, at) else Fresh(toks, at).Eat(w)
  }

  lemma ScanBad(c: char, tail: string, st: Scanner)
    requires !(c == QUOTE && st.inQuote) && Step(c, st).Err?
    ensures Scan([c] + tail, st) == Err(Step(c, st).error)
  {
  }

  lemma FrontOf(w: string, c: char, rest: string)
    requires AllPlain(w) && !IsSpace(c)
    ensures var bad := w + [c]; bad != "" && !IsSpace(bad[0]) && !IsSpace(bad[|bad| - 1]) && bad + rest == w + ([c] + rest)
  {
    if w != "" {
      assert w[0] in w;
    }
  }

  /** A comma or a closing parenthesis outside parentheses, and a quote inside a word, are refused where they stand. */
  lemma MisplacedRefused(p: string, toks: seq<RawToken>, w: string, c: char, rest: string)
    requires Ended(p, toks) && AllPlain(w) && (c == ',' || c == ')' || (c == QUOTE && w != ""))
    ensures Split(p + (w + [c]) + rest) ==
            Err(if c == ',' then CommaOutside(|p| + |w|) else if c == ')' then UnopenedParen(|p| + |w|)
                else QuoteInsideWord(|p| + |w|))
  {
    hide Scan, Feed, Split;
    FrontOf(w, c, rest);
    var rest' := ScanFrom(p, w + [c], rest, toks);
    FrontOf(w, c, rest');
    PlainFeeds(w, [c] + rest', toks, |p|);
    ScanBad(c, rest', Begun(w, toks, |p|));
  }

  /** The scanner inside the parentheses behind a plain word. */
  function InParens(w: string, toks: seq<RawToken>, at: nat): Scanner {
    Opened(Begun(w, toks, at))
  }

  lemma OpenParen(w: string, tail: string, toks: seq<RawToken>, at: nat)
    requires AllPlain(w) && w != ""
    ensures Scan(w + ("(" + tail), Fresh(toks, at)) == Scan(tail, InParens(w, toks, at))
    ensures var st := InParens(w, toks, at);
      && st.inParen && st.haveName && !st.inQuote && !st.curQuoted && st.seenParen && st.param == "" && st.params == []
      && st.raw == w + "(" && st.name == Some(w) && st.tokens == toks && st.at == at + |w| + 1
  {
    hide Scan;
    PlainFeeds(w, "(" + tail, toks, at);
    ScanCons('(', tail, Begun(w, toks, at));
  }

  lemma PlainInParens(x: string, tail: string, st: Scanner)
    requires AllPlain(x) && st.inParen && st.haveName && !st.inQuote
    ensures Scan(x + tail, st) == Scan(tail, st.Eat(x))
  {
    hide Scan;
    if x == "" {
      assert x + tail == tail;
      EatNothing(st);
    } else {
      ScanPlain(x, tail, st);
    }
  }

  /** A second opening parenthesis in a word is refused, inside the first one's or behind them. */
  lemma NestedRefused(p: string, toks: seq<RawToken>, w: string, x: string, closed: bool, rest: string)
    requires Ended(p, toks) && AllPlain(w) && w != "" && AllPlain(x)
    ensures var inner := if closed then x + ")" else x;
      Split(p + (w + "(" + inner + "(") + rest) == Err(NestedParen(|p| + |w| + 1 + |inner|))
  {
    hide Scan, Feed, Split;
    var inner := if closed then x + ")" else x;
    var bad := w + "(" + inner + "(";
    assert w[0] in w && bad[0] == w[0];
    var rest' := ScanFrom(p, bad, rest, toks);
    var st := InParens(w, toks, |p|);
    Regroup(w, inner, rest');
    OpenParen(w, inner + ("(" + rest'), toks, |p|);
    if closed {
      Assoc(x, ")", "(" + rest');
      PlainInParens(x, ")" + ("(" + rest'), st);
      ScanCons(')', "(" + rest', st.Eat(x));
      ScanBad('(', rest', Step(')', st.Eat(x)).value);
    } else {
      PlainInParens(x, "(" + rest', st);
      ScanBad('(', rest', st.Eat(x));
    }
  }

  lemma Regroup(w: string, inner: string, rest: string)
    ensures w + "(" + inner + "(" + rest == w + ("(" + (inner + ("(" + rest)))
  {
    Assoc(w + "(" + inner, "(", rest);
    Assoc(w + "(", inner, "(" + rest);
    Assoc(w, "(", inner + ("(" + rest));
  }

  lemma ScanOut(st: Scanner)
    ensures Scan("", st) == if st.inQuote then Err(UnclosedQuote) else if st.inParen then Err(UnclosedParen)
                            else Ok(st.Flush().tokens)
  {
  }

  lemma WordEnds(w: string)
    requires AllPlain(w) && w != ""
    ensures !IsSpace(w[0]) && !IsSpace(w[|w| - 1])
  {
    assert w[0] in w && w[|w| - 1] in w;
  }

  lemma FrontAndBack(w: string, mid: string, x: string)
    requires AllPlain(w) && w != "" && AllPlain(x) && mid != "" && !IsSpace(mid[|mid| - 1])
    ensures var bad := w + mid + x; bad != "" && !IsSpace(bad[0]) && !IsSpace(bad[|bad| - 1])
  {
    WordEnds(w);
    if x != "" {
      WordEnds(x);
    }
  }

  /** A parenthesis that is never closed is refused at the end. */
  lemma UnclosedParenRefused(p: string, toks: seq<RawToken>, w: string, x: string)
    requires Ended(p, toks) && AllPlain(w) && w != "" && AllPlain(x)
    ensures Split(p + (w + "(" + x)) == Err(UnclosedParen)
  {
    hide Scan, Feed, Split;
    var st := InParens(w, toks, |p|);
    FrontAndBack(w, "(", x);
    Unclosed(p, toks, w + "(" + x);
    Assoc(w, "(", x);
    OpenParen(w, x, toks, |p|);
    assert x + "" == x;
    PlainInParens(x, "", st);
    ScanOut(st.Eat(x));
  }

  /** So is a quote that is never closed, at the start of a word or inside parentheses. */
  lemma UnclosedQuoteRefused(p: string, toks: seq<RawToken>, w: string, x: string)
    requires Ended(p, toks) && AllPlain(w) && w != "" && AllPlain(x)
    ensures Split(p + (w + ("(" + [QUOTE]) + x)) == Err(UnclosedQuote)
    ensures Split(p + ([QUOTE] + x)) == Err(UnclosedQuote)
  {
    hide Scan, Feed, Split;
    FrontAndBack(w, "(" + [QUOTE], x);
    Unclosed(p, toks, w + ("(" + [QUOTE]) + x);
    Assoc(w, "(" + [QUOTE], x);
    Assoc("(", [QUOTE], x);
    OpenParen(w, [QUOTE] + x, toks, |p|);
    QuoteToEnd(x, InParens(w, toks, |p|));
    if x != "" {
      WordEnds(x);
    }
    Unclosed(p, toks, [QUOTE] + x);
    QuoteToEnd(x, Fresh(toks, |p|));
  }

  lemma Unclosed(p: string, toks: seq<RawToken>, bad: string)
    requires Ended(p, toks) && bad != "" && !IsSpace(bad[0]) && !IsSpace(bad[|bad| - 1])
    ensures Split(p + bad) == Scan(bad, Fresh(toks, |p|))
  {
    hide Scan, Feed;
    Untrimmed(p + bad);
    FeedAppend(p, bad, Fresh([], 0));
  }

  lemma {:induction false} NoQuotes(x: string)
    requires AllPlain(x)
    ensures Escape(x) == x
  {
    if x != "" {
      assert x[0] in x;
      NoQuotes(x[1..]);
      assert x == [x[0]] + x[1..];
    }
  }

  lemma QuoteToEnd(x: string, st: Scanner)
    requires AllPlain(x) && !st.inQuote && (st.inParen || !st.haveName) && Tidy(st)
    ensures Scan([QUOTE] + x, st) == Err(UnclosedQuote)
  {
    hide Scan;
    ScanCons(QUOTE, x, st);
    var open := Step(QUOTE, st).value;
    NoQuotes(x);
    ScanEscaped(x, "", open);
    assert x + "" == x;
    ScanOut(open.Eat(x));
  }

  lemma CloseAtEnd(y: string, st: Scanner)
    requires AllPlain(y) && st.inParen && st.haveName && !st.inQuote && !st.curQuoted && st.name.Some?
    requires st.param == "" && st.params == []
    ensures Scan(y + ")", st) == Ok(st.tokens + [RawToken(st.name.value, false, [y], st.raw + (y + ")"), true)])
  {
    hide Scan;
    PlainInParens(y, ")", st);
    ScanCons(')', "", st.Eat(y));
    assert ")" + "" == ")";
    WordUntrimmed(Bare(y));
    EndParam(y, ')', st);
    assert [] + [y] == [y];
    ScanOut(Step(')', st.Eat(y)).value);
  }

  lemma SpaceDrops(x: string, y: string, st: Scanner)
    requires AllPlain(x) && AllPlain(y) && st.inParen && st.haveName && !st.inQuote && !st.curQuoted && st.name.Some?
    requires st.params == []
    ensures Scan(x + (" " + (y + ")")), st) ==
            Ok(st.tokens + [RawToken(st.name.value, false, [y], st.raw + x + " " + (y + ")"), true)])
  {
    hide Scan;
    PlainInParens(x, " " + (y + ")"), st);
    ScanCons(' ', y + ")", st.Eat(x));
    CloseAtEnd(y, Step(' ', st.Eat(x)).value);
  }

  /** A space inside parentheses drops what stood before it in the parameter. */
  lemma InnerSpace(w: string, x: string, y: string)
    requires AllPlain(w) && w != "" && AllPlain(x) && AllPlain(y)
    ensures var raw := w + "(" + x + " " + y + ")"; Split(raw) == Ok([RawToken(w, false, [y], raw, true)])
  {
    hide Scan, Feed, Split, Step;
    var raw := w + "(" + x + " " + y + ")";
    InnerParts(w, x, y);
    Whole(w, x, y, raw);
    OpenParen(w, x + (" " + (y + ")")), [], 0);
    hide InParens;
    SpaceDrops(x, y, InParens(w, [], 0));
    Assoc(w + "(" + x + " ", y, ")");
    assert [] + [RawToken(w, false, [y], raw, true)] == [RawToken(w, false, [y], raw, true)];
  }

  lemma Whole(w: string, x: string, y: string, raw: string)
    requires AllPlain(w) && w != "" && raw == w + "(" + x + " " + y + ")"
    ensures Split(raw) == Scan(raw, Fresh([], 0))
  {
    WordEnds(w);
    hide Scan;
    Untrimmed(raw);
  }

  lemma InnerParts(w: string, x: string, y: string)
    ensures w + "(" + x + " " + y + ")" == w + ("(" + (x + (" " + (y + ")"))))
  {
    Assoc(w + "(" + x + " ", y, ")");
    Assoc(w + "(" + x, " ", y + ")");
    Assoc(w + "(", x, " " + (y + ")"));
    Assoc(w, "(", x + (" " + (y + ")")));
  }
}
