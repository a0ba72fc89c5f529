/** A token's raw text, scanned again by itself or in front of a space, gives the token back. */
module TagRescan {
  import opened Sequences
  import opened TagPrinter
  import opened TagTokenizer
  import TagRebuild

  /** The scanner after all of a text. */
  function Feed(rest: string, st: Scanner): Result<Scanner, SyntaxError>
    decreases |rest|
  {
    if rest == "" then Ok(st)
    else if rest[0] == QUOTE && st.inQuote && |rest| > 1 && rest[1] == QUOTE then
      Feed(rest[2..], st.Eat([QUOTE, QUOTE]))
    else
      match Step(rest[0], st)
      case Err(e) => Err(e)
      case Ok(st') => Feed(rest[1..], st')
  }

  /** A text that ends with a closing quote runs together with one that starts with a quote. */
  predicate RunsTogether(a: string, st': Scanner, b: string) {
    a != "" && a[|a| - 1] == QUOTE && !st'.inQuote && b != "" && b[0] == QUOTE
  }

  predicate Doubled(s: string, st: Scanner) {
    |s| > 1 && s[0] == QUOTE && s[1] == QUOTE && st.inQuote
  }

  lemma Cut(a: string, b: string, n: nat)
    requires n <= |a|
    ensures (a + b)[n..] == a[n..] + b
    ensures a != "" ==> (a + b)[0] == a[0] && a + b != ""
  {
  }

  lemma FeedDoubles(s: string, st: Scanner)
    requires Doubled(s, st)
    ensures Feed(s, st) == Feed(s[2..], st.Eat([QUOTE, QUOTE])) && Scan(s, st) == Scan(s[2..], st.Eat([QUOTE, QUOTE]))
  {
  }

  lemma FeedSteps(s: string, st: Scanner)
    requires s != "" && !Doubled(s, st)
    ensures Step(s[0], st).Ok? ==>
              Feed(s, st) == Feed(s[1..], Step(s[0], st).value) && Scan(s, st) == Scan(s[1..], Step(s[0], st).value)
    ensures Feed(s, st).Ok? ==> Step(s[0], st).Ok?
  {
  }

  lemma FeedEnds(b: string, st: Scanner)
    ensures Feed("", st) == Ok(st) && "" + b == b
  {
  }

  /** Feeding one text behind another; a scan is a feed and what comes behind it. */
  lemma {:induction false} FeedAppend(a: string, b: string, st: Scanner)
    requires Feed(a, st).Ok? && !RunsTogether(a, Feed(a, st).value, b)
    ensures Feed(a + b, st) == Feed(b, Feed(a, st).value) && Scan(a + b, st) == Scan(b, Feed(a, st).value)
    decreases |a|
  {
    hide Step, Feed, Scan;
    if a == "" {
      FeedEnds(b, st);
    } else if Doubled(a, st) {
      FeedDoubles(a, st);
      FeedAppend(a[2..], b, st.Eat([QUOTE, QUOTE]));
      Cut(a, b, 2);
      FeedDoubles(a + b, st);
    } else {
      FeedSteps(a, st);
      QuoteCloses(a, b, st);
      FeedAppend(a[1..], b, Step(a[0], st).value);
      Cut(a, b, 1);
      FeedSteps(a + b, st);
    }
  }

  /** Where a does not start with a doubled quote, a followed by b does not either. */
  lemma QuoteCloses(a: string, b: string, st: Scanner)
    requires a != "" && !Doubled(a, st)
    requires Feed(a, st).Ok? && !RunsTogether(a, Feed(a, st).value, b)
    ensures !Doubled(a + b, st)
  {
    if |a| == 1 && a[0] == QUOTE && st.inQuote {
      assert a[1..] == "";
      assert Feed(a, st).value == Step(QUOTE, st).value;
    }
  }

  /** A text is one token, not yet closed at its end. */
  predicate OneToken(r: string, tok: RawToken) {
    var fed := Feed(r, Fresh([], 0));
    && fed.Ok? && fed.value.haveName && !fed.value.inQuote && !fed.value.inParen
    && fed.value.tokens == [] && fed.value.Flushed() == tok && tok.raw == r
  }

  /** The text by itself is that token, exactly if there is no white space around it that would be trimmed away. */
  lemma OneTokenSplits(r: string, tok: RawToken)
    requires OneToken(r, tok)
    ensures Split(r) == Ok([tok]) <==> TrimSpace(r) == r
  {
    if TrimSpace(r) == r {
      assert r + "" == r;
      FeedAppend(r, "", Fresh([], 0));
      assert [] + [tok] == [tok];
    } else if Split(r) == Ok([tok]) {
      TagRebuild.SplitRebuilds(r);
      OnlyToken(tok);
    }
  }

  lemma OnlyToken(tok: RawToken)
    ensures TagRebuild.Lay(TagRebuild.RawTexts([tok]), [0]) == tok.raw
  {
  }

  // ---- every token of an accepted tag is such a text ---------------------------------------------

  /** The current token alone, at the start of its own text. */
  function Alone(st: Scanner): Scanner {
    st.(tokens := [], at := |st.raw|)
  }

  /** What has been taken into the current token leads, scanned alone, to the same state. */
  predicate Retraced(st: Scanner) {
    && (st.haveName ==> st.raw != "") && (!st.haveName ==> st == Fresh(st.tokens, st.at))
    && (st.inQuote || st.inParen ==> st.haveName)
    && Feed(st.raw, Fresh([], 0)) == Ok(Alone(st))
  }

  /** The rest of the text does not double a quote that has been taken as closing. */
  predicate Settled(rest: string, st: Scanner) {
    !RunsTogether(st.raw, st, rest)
  }

  predicate AllRetraced(toks: seq<RawToken>) {
    forall i :: 0 <= i < |toks| ==> OneToken(toks[i].raw, toks[i])
  }

  lemma FeedOne(c: char, st: Scanner)
    ensures Feed([c], st) == Step(c, st)
  {
    hide Step;
    assert [c][1..] == "";
  }

  lemma FeedDoubled(st: Scanner)
    requires st.inQuote
    ensures Feed([QUOTE, QUOTE], st) == Ok(st.Eat([QUOTE, QUOTE]))
  {
    assert [QUOTE, QUOTE][2..] == "";
  }

  /** Stepping alone is stepping with the tokens so far. */
  lemma StepAlone(c: char, st: Scanner)
    requires Retraced(st) && Step(c, st).Ok? && !(c == ' ' && !st.inQuote && !st.inParen)
    ensures var st' := Step(c, st).value;
      && Step(c, Alone(st)) == Ok(Alone(st')) && st'.haveName && st'.raw == st.raw + [c] && st'.tokens == st.tokens
      && (st'.inQuote || st'.inParen ==> st'.haveName)
  {
    hide Feed;
    assert st.raw == "" ==> "" + [c] == [c];
  }

  lemma RetraceStep(c: char, rest: string, st: Scanner)
    requires Retraced(st) && Settled([c] + rest, st) && Step(c, st).Ok?
    requires !(c == QUOTE && st.inQuote && rest != "" && rest[0] == QUOTE)
    requires !(c == ' ' && !st.inQuote && !st.inParen)
    ensures var st' := Step(c, st).value; Retraced(st') && Settled(rest, st') && st'.tokens == st.tokens
  {
    hide Feed, Step;
    StepAlone(c, st);
    FeedOne(c, Alone(st));
    FeedAppend(st.raw, [c], Fresh([], 0));
    QuoteSteps(c, st);
  }

  /** A quote that is read closes or opens quotes; nothing else changes that. */
  lemma QuoteSteps(c: char, st: Scanner)
    requires Step(c, st).Ok?
    ensures c == QUOTE ==> Step(c, st).value.inQuote == !st.inQuote
    ensures !(c == ' ' && !st.inQuote && !st.inParen) ==>
              Step(c, st).value.raw == (if st.haveName then st.raw + [c] else [c])
  {
  }

  lemma RetraceDoubled(rest: string, st: Scanner)
    requires Retraced(st) && st.inQuote
    ensures var st' := st.Eat([QUOTE, QUOTE]); Retraced(st') && Settled(rest, st') && st'.tokens == st.tokens
  {
    hide Feed;
    FeedDoubled(Alone(st));
    FeedAppend(st.raw, [QUOTE, QUOTE], Fresh([], 0));
  }

  lemma NothingFed(tokens: seq<RawToken>, at: nat)
    ensures Retraced(Fresh(tokens, at)) && forall rest :: Settled(rest, Fresh(tokens, at))
  {
  }

  lemma FlushedIsOneToken(st: Scanner)
    requires Retraced(st) && st.haveName && !st.inQuote && !st.inParen
    ensures OneToken(st.Flushed().raw, st.Flushed())
  {
    hide Feed;
  }

  lemma AllRetracedSnoc(toks: seq<RawToken>, tok: RawToken)
    requires AllRetraced(toks) && OneToken(tok.raw, tok)
    ensures AllRetraced(toks + [tok])
  {
    hide OneToken;
  }

  /** Scanning on from a retraced state only makes tokens that are retraced by their own texts. */
  lemma {:induction false} ScanRetraced(rest: string, st: Scanner)
    requires Retraced(st) && Settled(rest, st) && AllRetraced(st.tokens) && Scan(rest, st).Ok?
    ensures AllRetraced(Scan(rest, st).value)
    decreases |rest|
  {
    hide Feed, AllRetraced, Retraced, Settled, Step;
    if rest == "" {
      if st.haveName {
        FlushedIsOneToken(st);
        AllRetracedSnoc(st.tokens, st.Flushed());
      }
    } else if rest[0] == QUOTE && st.inQuote && |rest| > 1 && rest[1] == QUOTE {
      RetraceDoubled(rest[2..], st);
      ScanRetraced(rest[2..], st.Eat([QUOTE, QUOTE]));
    } else if rest[0] == ' ' && !st.inQuote && !st.inParen {
      SpaceFlushes(st);
      var st' := Step(' ', st).value;
      NothingFed(st'.tokens, st'.at);
      if st.haveName {
        FlushedIsOneToken(st);
        AllRetracedSnoc(st.tokens, st.Flushed());
      }
      ScanRetraced(rest[1..], st');
    } else {
      assert rest == [rest[0]] + rest[1..];
      RetraceStep(rest[0], rest[1..], st);
      ScanRetraced(rest[1..], Step(rest[0], st).value);
    }
  }

  lemma SpaceFlushes(st: Scanner)
    requires !st.inQuote && !st.inParen
    ensures Step(' ', st).Ok?
    ensures var st' := Step(' ', st).value;
      st' == Fresh(st'.tokens, st'.at) && st'.tokens == if st.haveName then st.tokens + [st.Flushed()] else st.tokens
  {
  }

  /**
   * Every token of an accepted tag is what its raw text, scanned alone, gives; so the raw text as a tag
   * of its own is that one token, unless white space other than a space stands at its end.
   */
  lemma SplitRetraced(tag: string)
    requires Split(tag).Ok?
    ensures AllRetraced(Split(tag).value)
    ensures forall tok :: tok in Split(tag).value ==> (Split(tok.raw) == Ok([tok]) <==> TrimSpace(tok.raw) == tok.raw)
  {
    NothingFed([], 0);
    ScanRetraced(TrimSpace(tag), Fresh([], 0));
    hide OneToken, Split, TrimSpace;
    forall tok | tok in Split(tag).value ensures Split(tok.raw) == Ok([tok]) <==> TrimSpace(tok.raw) == tok.raw {
      assert OneToken(tok.raw, tok);
      OneTokenSplits(tok.raw, tok);
    }
  }

  /** A tab at the end of a token is kept in its raw text and trimmed from the text as a tag. */
  lemma TabTrimmed()
    ensures var s := Split("a\t b");
      s.Ok? && |s.value| == 2 && s.value[0].raw == "a\t" && Split("a\t") != Ok([s.value[0]])
  {
    hide Scan, Feed, Split;
    var tag := "a\t b";
    TabSplits();
    SplitRetraced(tag);
  }

  lemma TabSplits()
    ensures var s := Split("a\t b"); s.Ok? && |s.value| == 2 && s.value[0].raw == "a\t"
  {
    hide Scan;
    assert ['a'] + "\t b" == "a\t b" && ['\t'] + " b" == "\t b" && [' '] + "b" == " b" && ['b'] + "" == "b";
    Untrimmed("a\t b");
    var st := Fresh([], 0);
    Taken('a', "\t b", st);
    Taken('\t', " b", st.Eat("a"));
    var word := st.Eat("a").Eat("\t");
    assert word.raw == "a\t" && word.haveName;
    ScanCons(' ', "b", word);
    var gap := word.Flush().(at := word.at + 1);
    Taken('b', "", gap);
    ScanEnd(gap.Eat("b"));
  }

  /** A letter or a tab is taken into the token. */
  lemma Taken(c: char, tail: string, st: Scanner)
    requires (c == 'a' || c == 'b' || c == '\t') && !st.inQuote
    ensures Scan([c] + tail, st) == Scan(tail, st.Eat([c]))
  {
    hide Scan;
    ScanCons(c, tail, st);
  }

  lemma ScanEnd(st: Scanner)
    requires st.haveName && !st.inQuote && !st.inParen
    ensures Scan("", st) == Ok(st.tokens + [st.Flushed()])
  {
  }

  // ---- the name at the start of a token ------------------------------------------------------------

  /** The name of a token that is not quoted begins its raw text. */
  predicate NameFirst(st: Scanner) {
    st.name.Some? && st.haveName && !st.curQuoted ==> st.name.value <= st.raw
  }

  lemma NameStep(c: char, st: Scanner)
    requires NameFirst(st) && Step(c, st).Ok? && (st.curQuoted ==> st.haveName) && (!st.haveName ==> st.name.None?)
    ensures var st' := Step(c, st).value;
      NameFirst(st') && (st'.curQuoted ==> st'.haveName) && (!st'.haveName ==> st'.name.None?)
  {
  }

  lemma {:induction false} NameFed(rest: string, st: Scanner)
    requires NameFirst(st) && Feed(rest, st).Ok? && (st.curQuoted ==> st.haveName) && (!st.haveName ==> st.name.None?)
    ensures NameFirst(Feed(rest, st).value)
    decreases |rest|
  {
    hide Step, NameFirst;
    if rest == "" {
    } else if rest[0] == QUOTE && st.inQuote && |rest| > 1 && rest[1] == QUOTE {
      NameEat(st);
      NameFed(rest[2..], st.Eat([QUOTE, QUOTE]));
    } else {
      NameStep(rest[0], st);
      NameFed(rest[1..], Step(rest[0], st).value);
    }
  }

  lemma NameEat(st: Scanner)
    requires NameFirst(st) && (!st.haveName ==> st.name.None?)
    ensures NameFirst(st.Eat([QUOTE, QUOTE]))
  {
  }

  /** A token text that is not quoted begins with the token's name. */
  lemma NameBegins(r: string, tok: RawToken)
    requires OneToken(r, tok) && !tok.quoted
    ensures tok.name <= r
  {
    NameFed(r, Fresh([], 0));
  }
}
