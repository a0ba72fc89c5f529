/** Printing tokens as a tag, and why the tokenizer undoes it. */
module TagPrinter {
  import opened Sequences
  import opened TagTokenizer

  /** A parameter or a name as a programmer means it: bare text, or any text in quotes. */
  datatype Word = Bare(text: string) | Quoted(text: string)

  datatype Token = Token(name: Word, params: seq<Word>)

  /** Characters a bare word may consist of. */
  predicate Plain(c: char) {
    c != QUOTE && c != ',' && c != '(' && c != ')' && !IsSpace(c)
  }

  ghost predicate WellFormedWord(w: Word) {
    w.Bare? ==> forall c :: c in w.text ==> Plain(c)
  }

  ghost predicate WellFormed(t: Token) {
    && WellFormedWord(t.name) && (t.name.Bare? ==> t.name.text != "")
    && forall p :: p in t.params ==> WellFormedWord(p)
  }

  function Escape(s: string): string {
    if s == [] then []
    else (if s[0] == QUOTE then [QUOTE, QUOTE] else [s[0]]) + Escape(s[1..])
  }

  function PrintWord(w: Word): string {
    match w
    case Bare(t) => t
    case Quoted(t) => [QUOTE] + Escape(t) + [QUOTE]
  }

  function PrintWords(ws: seq<Word>): string {
    if ws == [] then ""
    else if |ws| == 1 then PrintWord(ws[0])
    else PrintWord(ws[0]) + "," + PrintWords(ws[1..])
  }

  function Print(t: Token): string {
    PrintWord(t.name) + if t.params == [] then "" else "(" + PrintWords(t.params) + ")"
  }

  function Spaces(n: nat): string {
    seq(n, _ => ' ')
  }

  /** The raw token the tokenizer is to return: parameters keep their quotes. */
  function Raw(t: Token): RawToken {
    RawToken(t.name.text, t.name.Quoted?, Printed(t.params), Print(t), t.params != [])
  }

  function Printed(ws: seq<Word>): seq<string> {
    seq(|ws|, i requires 0 <= i < |ws| => PrintWord(ws[i]))
  }

  function Raws(ts: seq<Token>): seq<RawToken> {
    seq(|ts|, i requires 0 <= i < |ts| => Raw(ts[i]))
  }

  // ---- unquoting undoes quoting ----------------------------------------------------------------

  lemma {:induction false} UnescapeEscape(s: string)
    ensures Unescape(Escape(s)) == s
  {
    if s != [] {
      UnescapeEscape(s[1..]);
      var e := Escape(s);
      if s[0] == QUOTE {
        assert e[2..] == Escape(s[1..]);
      } else {
        assert e[0] == s[0] && e[1..] == Escape(s[1..]);
      }
      assert s == [s[0]] + s[1..];
    }
  }

  lemma UnquoteWord(w: Word)
    requires w.Quoted?
    ensures Unquote(PrintWord(w)) == w.text && UnquoteParam(PrintWord(w)) == w.text
  {
    var p := PrintWord(w);
    UnescapeEscape(w.text);
    assert p[0] == QUOTE && p[|p| - 1] == QUOTE && p[1..|p| - 1] == Escape(w.text);
    Untrimmed(p);
  }

  lemma Untrimmed(s: string)
    requires s != [] ==> !IsSpace(s[0]) && !IsSpace(s[|s| - 1])
    ensures TrimSpace(s) == s
  {
  }

  lemma WordUntrimmed(w: Word)
    requires WellFormedWord(w)
    ensures TrimSpace(PrintWord(w)) == PrintWord(w)
  {
    var p := PrintWord(w);
    if p != [] {
      assert w.Bare? ==> p[0] in w.text && p[|p| - 1] in w.text;
      Untrimmed(p);
    }
  }

  // ---- scanning what was printed ---------------------------------------------------------------

  lemma EatTwice(st: Scanner, a: string, b: string)
    ensures st.Eat(a).Eat(b) == st.Eat(a + b)
  {
    assert st.haveName ==> st.raw + (a + b) == st.raw + a + b;
    assert st.inParen ==> st.param + (a + b) == st.param + a + b;
  }

  lemma ScanCons(c: char, tail: string, st: Scanner)
    requires !(c == QUOTE && st.inQuote && tail != "" && tail[0] == QUOTE) && Step(c, st).Ok?
    ensures Scan([c] + tail, st) == Scan(tail, Step(c, st).value)
  {
    assert ([c] + tail)[1..] == tail;
  }

  /** Parameter text is kept only inside parentheses. */
  predicate Tidy(st: Scanner) {
    st.inParen || st.param == ""
  }

  lemma EatNothing(st: Scanner)
    requires st.haveName && Tidy(st)
    ensures st.Eat("") == st
  {
    assert st.raw + "" == st.raw && st.param + "" == st.param;
  }

  lemma EscapeCons(text: string, tail: string)
    requires text != []
    ensures var first := if text[0] == QUOTE then [QUOTE, QUOTE] else [text[0]];
            Escape(text) == first + Escape(text[1..]) && Escape(text) + tail == first + (Escape(text[1..]) + tail)
  {
  }

  lemma ScanTwo(tail: string, st: Scanner)
    requires st.inQuote
    ensures Scan([QUOTE, QUOTE] + tail, st) == Scan(tail, st.Eat([QUOTE, QUOTE]))
  {
    assert ([QUOTE, QUOTE] + tail)[2..] == tail;
  }

  /** Inside quotes the scanner only looks for the closing quote. */
  lemma {:induction false} ScanEscaped(text: string, tail: string, st: Scanner)
    requires st.inQuote && st.haveName && Tidy(st)
    ensures Scan(Escape(text) + tail, st) == Scan(tail, st.Eat(Escape(text)))
    decreases |text|
  {
    if text == [] {
      assert Escape(text) + tail == tail;
      EatNothing(st);
    } else {
      var first := if text[0] == QUOTE then [QUOTE, QUOTE] else [text[0]];
      var rest := Escape(text[1..]) + tail;
      EscapeCons(text, tail);
      if text[0] == QUOTE {
        ScanTwo(rest, st);
      } else {
        ScanCons(text[0], rest, st);
      }
      ScanEscaped(text[1..], tail, st.Eat(first));
      EatTwice(st, first, Escape(text[1..]));
    }
  }

  /** Plain characters only extend the current token, or start one. */
  lemma {:induction false} ScanPlain(p: string, tail: string, st: Scanner)
    requires !st.inQuote && p != "" && forall c :: c in p ==> Plain(c)
    ensures Scan(p + tail, st) == Scan(tail, st.Eat(p))
    decreases |p|
  {
    var rest := p[1..];
    assert p + tail == [p[0]] + (rest + tail) && p == [p[0]] + rest && Plain(p[0]);
    ScanCons(p[0], rest + tail, st);
    if rest == "" {
      assert rest + tail == tail;
    } else {
      ScanPlain(rest, tail, st.Eat([p[0]]));
      EatTwice(st, [p[0]], rest);
    }
  }

  lemma Assoc(a: string, b: string, c: string)
    ensures a + b + c == a + (b + c)
  {
  }

  /** The body and the closing quote of a quoted word, when no quote follows. */
  lemma ScanBody(text: string, tail: string, st: Scanner)
    requires st.inQuote && st.haveName && Tidy(st) && (tail == "" || tail[0] != QUOTE)
    ensures Step(QUOTE, st.Eat(Escape(text))).Ok?
    ensures Scan(Escape(text) + ([QUOTE] + tail), st) == Scan(tail, Step(QUOTE, st.Eat(Escape(text))).value)
  {
    ScanEscaped(text, [QUOTE] + tail, st);
    ScanCons(QUOTE, tail, st.Eat(Escape(text)));
  }

  lemma QuotedParts(text: string, tail: string)
    ensures PrintWord(Quoted(text)) + tail == [QUOTE] + (Escape(text) + ([QUOTE] + tail))
    ensures PrintWord(Quoted(text)) == [QUOTE] + Escape(text) + [QUOTE]
  {
  }

  lemma EatQuoted(st: Scanner, text: string)
    ensures st.Eat([QUOTE]).Eat(Escape(text)).Eat([QUOTE]) == st.Eat(PrintWord(Quoted(text)))
  {
    EatTwice(st, [QUOTE], Escape(text));
    EatTwice(st, [QUOTE] + Escape(text), [QUOTE]);
  }

  lemma ScanQuotedParam(text: string, tail: string, st: Scanner)
    requires st.inParen && st.haveName && !st.inQuote && (tail == "" || tail[0] != QUOTE)
    ensures Scan(PrintWord(Quoted(text)) + tail, st) == Scan(tail, st.Eat(PrintWord(Quoted(text))))
  {
    var open := st.Eat([QUOTE]).(inQuote := true);
    QuotedParts(text, tail);
    ScanCons(QUOTE, Escape(text) + ([QUOTE] + tail), st);
    ScanBody(text, tail, open);
    EatQuoted(st, text);
    assert Step(QUOTE, open.Eat(Escape(text))).value == st.Eat([QUOTE]).Eat(Escape(text)).Eat([QUOTE]);
  }

  lemma ScanQuotedName(text: string, tail: string, st: Scanner)
    requires Between(st) && (tail == "" || tail[0] != QUOTE)
    ensures Scan(PrintWord(Quoted(text)) + tail, st) == Scan(tail, Named(st, Quoted(text)))
  {
    var open := st.Eat([QUOTE]).(inQuote := true, curQuoted := true);
    QuotedParts(text, tail);
    ScanCons(QUOTE, Escape(text) + ([QUOTE] + tail), st);
    ScanBody(text, tail, open);
    EatQuoted(st, text);
    var eaten := st.Eat([QUOTE]).Eat(Escape(text)).Eat([QUOTE]);
    assert Step(QUOTE, open.Eat(Escape(text))).value == eaten.(curQuoted := true, name := Some(eaten.raw));
  }

  /** Between tokens: nothing started yet. */
  predicate Between(st: Scanner) {
    st == Fresh(st.tokens, st.at)
  }

  /** The scanner after a printed name. */
  function Named(st: Scanner, w: Word): Scanner {
    st.Eat(PrintWord(w)).(curQuoted := w.Quoted?, name := if w.Quoted? then Some(PrintWord(w)) else None)
  }

  lemma ScanParam(w: Word, tail: string, st: Scanner)
    requires st.inParen && st.haveName && !st.inQuote && WellFormedWord(w) && (tail == "" || tail[0] != QUOTE)
    ensures Scan(PrintWord(w) + tail, st) == Scan(tail, st.Eat(PrintWord(w)))
  {
    match w
    case Bare(t) =>
      if t == "" {
        assert "" + tail == tail;
        EatNothing(st);
      } else {
        ScanPlain(t, tail, st);
      }
    case Quoted(t) =>
      ScanQuotedParam(t, tail, st);
  }

  /** The scanner after a parameter list and its closing parenthesis. */
  function Closed(st: Scanner, ws: seq<Word>): Scanner {
    st.Eat(PrintWords(ws) + ")").(inParen := false, params := st.params + Printed(ws), param := "")
  }

  lemma EatFromNothing(st: Scanner, p: string)
    requires st.inParen && st.param == ""
    ensures st.Eat(p).param == p
  {
  }

  /** A comma or the closing parenthesis ends a parameter that has no white space around it. */
  lemma EndParam(p: string, c: char, st: Scanner)
    requires st.inParen && st.haveName && !st.inQuote && st.param == "" && (c == ',' || c == ')') && TrimSpace(p) == p
    ensures Step(c, st.Eat(p)) ==
            Ok(st.Eat(p + [c]).(inParen := c == ',', params := st.params + [p], param := ""))
  {
    EatFromNothing(st, p);
    EatTwice(st, p, [c]);
  }

  lemma ScanParamThen(w: Word, c: char, tail: string, st: Scanner)
    requires st.inParen && st.haveName && !st.inQuote && st.param == "" && WellFormedWord(w) && (c == ',' || c == ')')
    ensures Scan(PrintWord(w) + [c] + tail, st) ==
            Scan(tail, st.Eat(PrintWord(w) + [c]).(inParen := c == ',', params := st.params + [PrintWord(w)], param := ""))
  {
    var p := PrintWord(w);
    Assoc(p, [c], tail);
    WordUntrimmed(w);
    EndParam(p, c, st);
    ScanParam(w, [c] + tail, st);
    ScanCons(c, tail, st.Eat(p));
  }

  lemma PrintedCons(before: seq<string>, ws: seq<Word>)
    requires ws != []
    ensures before + Printed(ws) == before + [PrintWord(ws[0])] + Printed(ws[1..])
    ensures |ws| == 1 ==> before + Printed(ws) == before + [PrintWord(ws[0])]
  {
  }

  /** A parameter list up to and including the closing parenthesis. */
  lemma {:induction false} ScanParams(ws: seq<Word>, tail: string, st: Scanner)
    requires st.inParen && st.haveName && !st.inQuote && st.param == "" && ws != []
    requires forall w :: w in ws ==> WellFormedWord(w)
    ensures Scan(PrintWords(ws) + ")" + tail, st) == Scan(tail, Closed(st, ws))
    decreases |ws|
  {
    var p := PrintWord(ws[0]);
    PrintedCons(st.params, ws);
    if |ws| == 1 {
      ScanParamThen(ws[0], ')', tail, st);
    } else {
      var rest := PrintWords(ws[1..]) + ")";
      ListParts(ws, tail);
      ScanParamThen(ws[0], ',', rest + tail, st);
      var st1 := st.Eat(p + ",").(params := st.params + [p], param := "");
      ScanParams(ws[1..], tail, st1);
      ClosedCons(st, ws);
    }
  }

  lemma ListParts(ws: seq<Word>, tail: string)
    requires |ws| > 1
    ensures PrintWords(ws) + ")" + tail == PrintWord(ws[0]) + "," + (PrintWords(ws[1..]) + ")" + tail)
    ensures PrintWords(ws) + ")" == PrintWord(ws[0]) + "," + (PrintWords(ws[1..]) + ")")
  {
    Assoc(PrintWord(ws[0]) + ",", PrintWords(ws[1..]), ")");
    Assoc(PrintWord(ws[0]) + ",", PrintWords(ws[1..]) + ")", tail);
  }

  lemma ClosedCons(st: Scanner, ws: seq<Word>)
    requires |ws| > 1 && st.haveName && st.inParen
    ensures Closed(st, ws) ==
            Closed(st.Eat(PrintWord(ws[0]) + ",").(params := st.params + [PrintWord(ws[0])], param := ""), ws[1..])
  {
    ListParts(ws, "");
    PrintedCons(st.params, ws);
    Assoc(st.raw, PrintWord(ws[0]) + ",", PrintWords(ws[1..]) + ")");
  }

  // ---- whole tokens and tags ---------------------------------------------------------------------

  /** The scanner after a printed token. */
  function AtEnd(st: Scanner, t: Token): Scanner {
    var named := Named(st, t.name);
    if t.params == [] then named else Closed(Opened(named), t.params)
  }

  /** The scanner after the opening parenthesis that follows a name. */
  function Opened(named: Scanner): Scanner {
    named.Eat("(").(inParen := true, seenParen := true, param := "",
                    name := if named.name.Some? then named.name else Some(named.raw))
  }

  lemma ScanName(w: Word, tail: string, st: Scanner)
    requires Between(st) && WellFormedWord(w) && (w.Bare? ==> w.text != "") && (tail == "" || tail[0] != QUOTE)
    ensures Scan(PrintWord(w) + tail, st) == Scan(tail, Named(st, w))
  {
    match w
    case Bare(t) => ScanPlain(t, tail, st);
    case Quoted(t) => ScanQuotedName(t, tail, st);
  }

  lemma TokenParts(t: Token, tail: string)
    requires t.params != []
    ensures Print(t) + tail == PrintWord(t.name) + ("(" + (PrintWords(t.params) + ")" + tail))
  {
    Assoc(PrintWord(t.name), "(" + PrintWords(t.params) + ")", tail);
    Assoc("(", PrintWords(t.params), ")");
    Assoc("(", PrintWords(t.params) + ")", tail);
  }

  lemma ScanToken(t: Token, tail: string, st: Scanner)
    requires Between(st) && WellFormed(t) && (tail == "" || tail[0] == ' ')
    ensures Scan(Print(t) + tail, st) == Scan(tail, AtEnd(st, t))
  {
    if t.params == [] {
      assert PrintWord(t.name) + "" == PrintWord(t.name);
      ScanName(t.name, tail, st);
    } else {
      TokenParts(t, tail);
      ScanName(t.name, "(" + (PrintWords(t.params) + ")" + tail), st);
      ScanCons('(', PrintWords(t.params) + ")" + tail, Named(st, t.name));
      ScanParams(t.params, tail, Opened(Named(st, t.name)));
    }
  }

  lemma FlushedIsRaw(st: Scanner, t: Token)
    requires Between(st) && WellFormed(t)
    ensures AtEnd(st, t).Flushed() == Raw(t) && AtEnd(st, t).haveName && !AtEnd(st, t).inQuote && !AtEnd(st, t).inParen
    ensures AtEnd(st, t).tokens == st.tokens && AtEnd(st, t).at == st.at + |Print(t)|
  {
    if t.name.Quoted? {
      UnquoteWord(t.name);
    }
    if t.params == [] {
      assert PrintWord(t.name) + "" == PrintWord(t.name);
      assert Printed(t.params) == [];
    } else {
      assert [] + Printed(t.params) == Printed(t.params);
      Assoc(PrintWord(t.name), "(", PrintWords(t.params) + ")");
      TokenParts(t, "");
      assert PrintWords(t.params) + ")" + "" == PrintWords(t.params) + ")";
      assert Print(t) + "" == Print(t);
    }
  }

  lemma {:induction false} ScanSpaces(n: nat, tail: string, st: Scanner)
    requires Between(st)
    ensures Scan(Spaces(n) + tail, st) == Scan(tail, Fresh(st.tokens, st.at + n))
  {
    if n == 0 {
      assert Spaces(0) + tail == tail;
    } else {
      assert Spaces(n) + tail == [' '] + (Spaces(n - 1) + tail);
      ScanCons(' ', Spaces(n - 1) + tail, st);
      ScanSpaces(n - 1, tail, Fresh(st.tokens, st.at + 1));
    }
  }

  /** The tokens from the first on, laid out: what is left to scan after some of them. */
  function LayoutFrom(ts: seq<Token>, gaps: seq<nat>): string
    requires |ts| == |gaps|
  {
    if ts == [] then "" else Spaces(gaps[0]) + Print(ts[0]) + LayoutFrom(ts[1..], gaps[1..])
  }

  ghost predicate Spread(gaps: seq<nat>) {
    forall i :: 0 <= i < |gaps| ==> gaps[i] >= 1
  }

  /** Spaces after a token close it. */
  lemma ScanGap(n: nat, tail: string, st: Scanner)
    requires n >= 1 && st.haveName && !st.inQuote && !st.inParen
    ensures Scan(Spaces(n) + tail, st) == Scan(tail, Fresh(st.tokens + [st.Flushed()], st.at + n))
  {
    var between := Fresh(st.tokens + [st.Flushed()], st.at + 1);
    assert Spaces(n) + tail == [' '] + (Spaces(n - 1) + tail);
    ScanCons(' ', Spaces(n - 1) + tail, st);
    ScanSpaces(n - 1, tail, between);
  }

  /** Spaces close a token and lead to the end of the next one. */
  lemma ScanSpaced(n: nat, t: Token, rest: string, st: Scanner) returns (st': Scanner)
    requires n >= 1 && WellFormed(t) && (rest == "" || rest[0] == ' ')
    requires st.haveName && !st.inQuote && !st.inParen
    ensures Scan(Spaces(n) + Print(t) + rest, st) == Scan(rest, st')
    ensures st'.tokens == st.tokens + [st.Flushed()] && st'.Flushed() == Raw(t)
    ensures st'.haveName && !st'.inQuote && !st'.inParen
  {
    var started := Fresh(st.tokens + [st.Flushed()], st.at + n);
    Assoc(Spaces(n), Print(t), rest);
    ScanGap(n, Print(t) + rest, st);
    ScanToken(t, rest, started);
    FlushedIsRaw(started, t);
    st' := AtEnd(started, t);
  }

  lemma RawsCons(before: seq<RawToken>, ts: seq<Token>)
    requires ts != []
    ensures before + Raws(ts) == before + [Raw(ts[0])] + Raws(ts[1..])
  {
  }

  lemma NoRaws(before: seq<RawToken>)
    ensures before + Raws([]) == before
  {
  }

  /** After a token, spaces and more tokens follow. */
  lemma {:induction false} ScanMore(ts: seq<Token>, gaps: seq<nat>, st: Scanner)
    requires |ts| == |gaps| && Spread(gaps) && forall t :: t in ts ==> WellFormed(t)
    requires st.haveName && !st.inQuote && !st.inParen
    ensures Scan(LayoutFrom(ts, gaps), st) == Ok(st.tokens + [st.Flushed()] + Raws(ts))
  {
    if ts == [] {
      NoRaws(st.tokens + [st.Flushed()]);
    } else {
      RestStartsWithSpace(ts[1..], gaps[1..]);
      var st' := ScanSpaced(gaps[0], ts[0], LayoutFrom(ts[1..], gaps[1..]), st);
      ScanMore(ts[1..], gaps[1..], st');
      RawsCons(st.tokens + [st.Flushed()], ts);
    }
  }

  lemma RestStartsWithSpace(ts: seq<Token>, gaps: seq<nat>)
    requires |ts| == |gaps| && Spread(gaps)
    ensures LayoutFrom(ts, gaps) == "" || LayoutFrom(ts, gaps)[0] == ' '
  {
  }

  /** A printed tag: the first token, then each other one after at least one space. */
  function PrintTag(ts: seq<Token>, gaps: seq<nat>): string
    requires |ts| == |gaps| + 1
  {
    Print(ts[0]) + LayoutFrom(ts[1..], gaps)
  }

  lemma PrintEnds(t: Token)
    requires WellFormed(t)
    ensures Print(t) != "" && !IsSpace(Print(t)[0]) && !IsSpace(Print(t)[|Print(t)| - 1])
  {
    var p := PrintWord(t.name);
    if t.name.Bare? {
      assert p[0] in t.name.text && p[|p| - 1] in t.name.text;
    }
  }

  lemma {:induction false} LayoutEnd(ts: seq<Token>, gaps: seq<nat>)
    requires |ts| == |gaps| && ts != [] && forall t :: t in ts ==> WellFormed(t)
    ensures var s := LayoutFrom(ts, gaps); s != "" && !IsSpace(s[|s| - 1])
  {
    PrintEnds(ts[0]);
    if |ts| > 1 {
      LayoutEnd(ts[1..], gaps[1..]);
    }
  }

  lemma TagUntrimmed(ts: seq<Token>, gaps: seq<nat>)
    requires |ts| == |gaps| + 1 && forall t :: t in ts ==> WellFormed(t)
    ensures TrimSpace(PrintTag(ts, gaps)) == PrintTag(ts, gaps)
  {
    var s := PrintTag(ts, gaps);
    PrintEnds(ts[0]);
    if |ts| > 1 {
      LayoutEnd(ts[1..], gaps);
    }
    assert s[0] == Print(ts[0])[0];
    Untrimmed(s);
  }

  /** Splitting a printed tag returns exactly the tokens printed, however many spaces separate them. */
  lemma SplitUndoesPrint(ts: seq<Token>, gaps: seq<nat>)
    requires |ts| == |gaps| + 1 && Spread(gaps) && forall t :: t in ts ==> WellFormed(t)
    ensures Split(PrintTag(ts, gaps)) == Ok(Raws(ts))
  {
    TagUntrimmed(ts, gaps);
    RestStartsWithSpace(ts[1..], gaps);
    ScanToken(ts[0], LayoutFrom(ts[1..], gaps), Fresh([], 0));
    FlushedIsRaw(Fresh([], 0), ts[0]);
    ScanMore(ts[1..], gaps, AtEnd(Fresh([], 0), ts[0]));
    RawsCons([], ts);
    assert [] + Raws(ts) == Raws(ts);
  }
}
