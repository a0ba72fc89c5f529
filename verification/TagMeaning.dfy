/** Which tags are refused, and how what stands later in a tag goes with what stands before it. */
module TagMeaning {
  import opened Sequences
  import opened TagTokenizer
  import opened FieldTag
  import opened TagRoundTrip

  /** An unquoted token with this word, in any letter case. */
  predicate IsWord(tok: RawToken, w: string) {
    !tok.quoted && Lower(tok.name) == w
  }

  // ---- which tags are refused ----------------------------------------------------------------------

  /** An unquoted token that is neither a keyword nor the name of a type. */
  ghost predicate Unknown(tok: RawToken) {
    !tok.quoted && (forall k: Keyword :: Lower(tok.name) != Spelling(k)) && !IsSqlWord(Lower(tok.name))
  }

  /**
   * A token that cannot be there: a disabled word, an unknown one, a quoted name with parameters, a not
   * without its null, or a default or collate without a value.
   */
  ghost predicate Refusable(tok: RawToken, post: seq<RawToken>) {
    || IsWord(tok, "deleted") || IsWord(tok, "cache") || IsWord(tok, "nocache") || Unknown(tok)
    || (tok.quoted && tok.hasCond)
    || (IsWord(tok, "not") && (post == [] || !IsWord(post[0], "null")))
    || ((IsWord(tok, "default") || IsWord(tok, "collate")) && !(tok.hasCond && tok.params != []) && post == [])
  }

  lemma ClassifyIsSpelling(name: string, k: Keyword)
    ensures Classify(name) == Some(k) <==> Lower(name) == Spelling(k)
  {
    if Lower(name) == Spelling(k) {
      Classified(k);
      SpellingIsLower(k);
      hide Lower;
    } else {
      hide Lower;
    }
  }

  lemma Classifies(tok: RawToken)
    ensures Classify(tok.name) == None <==> forall k: Keyword :: Lower(tok.name) != Spelling(k)
    ensures forall k: Keyword :: Classify(tok.name) == Some(k) <==> Lower(tok.name) == Spelling(k)
  {
    hide Classify, Lower, Spelling;
    forall k: Keyword ensures Classify(tok.name) == Some(k) <==> Lower(tok.name) == Spelling(k) {
      ClassifyIsSpelling(tok.name, k);
    }
  }

  lemma KeywordRefused(k: Keyword, p: Option<string>, next: Option<RawToken>, m: FieldMeta)
    ensures TakeKeyword(k, p, next, m).Err? <==>
            || k == Deleted || k == Cache || k == Nocache
            || (k == Not && (next.None? || !IsWord(next.value, "null")))
            || ((k == Default || k == Collate) && p == None && next == None)
  {
    hide Lower, Spelling;
  }

  lemma NextOf(tok: RawToken, post: seq<RawToken>)
    ensures Next([tok] + post) == if post == [] then None else Some(post[0])
  {
  }

  lemma ParamGiven(tok: RawToken)
    ensures FirstParam(tok).Some? <==> tok.hasCond && tok.params != []
  {
  }

  lemma WordRefused(k: Keyword, tok: RawToken, post: seq<RawToken>, m: FieldMeta)
    requires !tok.quoted && Lower(tok.name) == Spelling(k)
    ensures TakeKeyword(k, FirstParam(tok), Next([tok] + post), m).Err? <==> Refusable(tok, post)
  {
    NextOf(tok, post);
    ParamGiven(tok);
    KnownWord(k, tok);
    KeywordRefused(k, FirstParam(tok), Next([tok] + post), m);
    hide Lower, Spelling, TakeKeyword, FirstParam, Next, IsSqlWord;
    assert !Unknown(tok);
  }

  lemma NoKeyword(tok: RawToken)
    requires !tok.quoted && forall k: Keyword :: Lower(tok.name) != Spelling(k)
    ensures !IsWord(tok, "deleted") && !IsWord(tok, "cache") && !IsWord(tok, "nocache") && !IsWord(tok, "not")
    ensures !IsWord(tok, "default") && !IsWord(tok, "collate")
  {
    assert Spelling(Deleted) == "deleted" && Spelling(Cache) == "cache" && Spelling(Nocache) == "nocache";
    assert Spelling(Not) == "not" && Spelling(Default) == "default" && Spelling(Collate) == "collate";
    hide Lower, Spelling;
  }

  lemma TakeRefused(tok: RawToken, post: seq<RawToken>, m: FieldMeta)
    ensures Take(tok, Next([tok] + post), m).Err? <==> Refusable(tok, post)
  {
    hide Lower, Spelling, Classify, IsSqlWord, TakeKeyword, FirstParam, Next;
    if !tok.quoted {
      Classifies(tok);
      var k := Classify(tok.name);
      if k.Some? {
        WordRefused(k.value, tok, post, m);
      } else {
        NoKeyword(tok);
      }
    }
  }

  /** A keyword's spelling is one of the named words exactly if it is that keyword. */
  lemma KnownWord(k: Keyword, tok: RawToken)
    requires Lower(tok.name) == Spelling(k)
    ensures Lower(tok.name) == "deleted" <==> k == Deleted
    ensures Lower(tok.name) == "cache" <==> k == Cache
    ensures Lower(tok.name) == "nocache" <==> k == Nocache
    ensures Lower(tok.name) == "not" <==> k == Not
    ensures Lower(tok.name) == "default" <==> k == Default
    ensures Lower(tok.name) == "collate" <==> k == Collate
  {
    hide Lower;
  }

  /** The token at i is reached by a parse that has gone well, and cannot be there. */
  ghost predicate RefusedAt(toks: seq<RawToken>, m: FieldMeta, i: nat) {
    i < |toks| && Parse(toks[..i], m).Ok? && Refusable(toks[i], toks[i + 1..])
  }

  lemma SplitAt(toks: seq<RawToken>, i: nat)
    requires i < |toks|
    ensures toks == toks[..i] + ([toks[i]] + toks[i + 1..])
  {
  }

  lemma RefusedMeansError(toks: seq<RawToken>, m: FieldMeta, i: nat)
    requires RefusedAt(toks, m, i)
    ensures Parse(toks, m).Err?
  {
    hide Take, Refusable;
    SplitAt(toks, i);
    var rest := [toks[i]] + toks[i + 1..];
    ParseAppend(toks[..i], rest, m);
    TakeRefused(toks[i], toks[i + 1..], Parse(toks[..i], m).value);
  }

  lemma ErrorIsRefusal(toks: seq<RawToken>, m: FieldMeta)
    requires Parse(toks, m).Err?
    ensures exists i :: RefusedAt(toks, m, i)
    decreases |toks|
  {
    hide Take, Refusable;
    SplitAt(toks, 0);
    assert [toks[0]] + toks[1..] == toks;
    TakeRefused(toks[0], toks[1..], m);
    var t := Take(toks[0], Next(toks), m);
    if t.Err? {
      assert toks[..0] == [] && RefusedAt(toks, m, 0);
    } else {
      var n := t.value.1;
      TakeUses(toks[0], Next(toks), m);
      ErrorIsRefusal(toks[n..], t.value.0);
      var j: nat :| RefusedAt(toks[n..], t.value.0, j);
      Further(toks, m, j);
      assert RefusedAt(toks, m, n + j);
    }
  }

  /** What goes well behind the first step goes well from the start. */
  lemma Further(toks: seq<RawToken>, m: FieldMeta, j: nat)
    requires toks != [] && Take(toks[0], Next(toks), m).Ok?
    requires var t := Take(toks[0], Next(toks), m).value;
      0 < t.1 <= |toks| && RefusedAt(toks[t.1..], t.0, j)
    ensures RefusedAt(toks, m, Take(toks[0], Next(toks), m).value.1 + j)
  {
    hide Take, Refusable;
    var t := Take(toks[0], Next(toks), m).value;
    var n := t.1;
    var front := toks[..n + j];
    assert toks[n..][j] == toks[n + j] && toks[n..][j + 1..] == toks[n + j + 1..];
    assert front[n..] == toks[n..][..j];
    TakeUses(toks[0], Next(toks), m);
    StepIsSame(toks[0], Next(toks), Next(front), m);
  }

  lemma StepIsSame(tok: RawToken, next: Option<RawToken>, next': Option<RawToken>, m: FieldMeta)
    requires Take(tok, next, m).Ok? && (next' == next || (next' == None && Take(tok, next, m).value.1 == 1))
    ensures Take(tok, next', m) == Take(tok, next, m)
  {
    hide Spelling, Lower;
  }

  /**
   * A tag is refused exactly if it cannot be split into tokens, or some token, reached after tokens that
   * parse, is a disabled or unknown word, a quoted name with parameters, a lone not, or a default or
   * collate without a value.
   */
  lemma RefusedIff(tag: string)
    ensures ParseTag(tag).Err? <==> Split(tag).Err? || exists i :: RefusedAt(Split(tag).value, EMPTY, i)
  {
    hide Split, Parse, RefusedAt;
    if Split(tag).Ok? {
      var toks := Split(tag).value;
      if Parse(toks, EMPTY).Err? {
        ErrorIsRefusal(toks, EMPTY);
      } else if i: nat :| RefusedAt(toks, EMPTY, i) {
        RefusedMeansError(toks, EMPTY, i);
      }
    }
  }

  // ---- tokens that mean the same --------------------------------------------------------------------

  /** jsonb says what json says, and parameters behind the first are not looked at. */
  ghost predicate Synonyms(a: RawToken, b: RawToken) {
    || ((IsWord(a, "json") || IsWord(a, "jsonb")) && (IsWord(b, "json") || IsWord(b, "jsonb")))
    || (&& !a.quoted && !b.quoted && Lower(a.name) == Lower(b.name) && !IsSqlWord(Lower(a.name))
        && a.hasCond == b.hasCond && (a.params != [] <==> b.params != []) && (a.params != [] ==> a.params[0] == b.params[0]))
  }

  lemma JsonTaken(a: RawToken, next: Option<RawToken>, m: FieldMeta)
    requires IsWord(a, "json") || IsWord(a, "jsonb")
    ensures Take(a, next, m) == Ok((m.Set(AsJson), 1))
  {
    ClassifyIsSpelling(a.name, Json);
    ClassifyIsSpelling(a.name, Jsonb);
    assert Spelling(Json) == "json" && Spelling(Jsonb) == "jsonb";
    hide Lower, Spelling, Classify, FirstParam;
  }

  lemma TakenAlike(a: RawToken, b: RawToken, next: Option<RawToken>, m: FieldMeta)
    requires Synonyms(a, b) && Take(a, next, m).Ok?
    ensures Take(a, next, m) == Take(b, next, m)
  {
    if IsWord(a, "json") || IsWord(a, "jsonb") {
      JsonTaken(a, next, m);
      assert Lower(b.name) == "json" || Lower(b.name) == "jsonb";
      JsonTaken(b, next, m);
    } else {
      assert Classify(a.name) == Classify(b.name);
      hide Lower, Classify, IsSqlWord, UnquoteParam, TakeKeyword;
    }
  }

  /** Anywhere in a tag, behind tokens that parse by themselves, synonyms mean the same. */
  lemma SynonymsParseAlike(pre: seq<RawToken>, a: RawToken, b: RawToken, post: seq<RawToken>, m: FieldMeta)
    requires Synonyms(a, b) && Parse(pre, m).Ok? && Parse(pre + [a] + post, m).Ok?
    ensures Parse(pre + [a] + post, m) == Parse(pre + [b] + post, m)
  {
    hide Take, Synonyms;
    var m' := Parse(pre, m).value;
    var x, y := [a] + post, [b] + post;
    assert pre + [a] + post == pre + x && pre + [b] + post == pre + y;
    ParseAppend(pre, x, m);
    ParseAppend(pre, y, m);
    assert Next(x) == Next(y);
    TakenAlike(a, b, Next(x), m');
    TakeUses(a, Next(x), m');
    var n := Take(a, Next(x), m').value.1;
    assert x[n..] == y[n..];
  }

  // ---- what is said later counts --------------------------------------------------------------------

  /** A text that was said later stands; otherwise the earlier one, unless it was emptied. */
  predicate Newest(x: string, said: string, before: string) {
    if said != "" then x == said else x == before || x == ""
  }

  /** x is what b leaves when it is said on top of a. */
  predicate OnTop(x: FieldMeta, b: FieldMeta, a: FieldMeta) {
    && x.flags == a.flags + b.flags
    && Newest(x.columnName, b.columnName, a.columnName) && Newest(x.sqlType, b.sqlType, a.sqlType)
    && Newest(x.indexName, b.indexName, a.indexName) && Newest(x.uniqueName, b.uniqueName, a.uniqueName)
    && Newest(x.default, b.default, a.default) && Newest(x.comment, b.comment, a.comment)
    && Newest(x.extendsPrefix, b.extendsPrefix, a.extendsPrefix) && Newest(x.collate, b.collate, a.collate)
  }

  lemma SetOnTop(x: FieldMeta, b: FieldMeta, a: FieldMeta, f: Flag)
    requires OnTop(x, b, a)
    ensures OnTop(x.Set(f), b.Set(f), a)
  {
  }

  /** A meta with the text of a keyword. */
  function WithText(k: Keyword, s: string, m: FieldMeta): FieldMeta {
    match k
    case Index => m.(indexName := s)
    case Unique => m.(uniqueName := s)
    case Default => m.(default := s)
    case Comment => m.(comment := s)
    case Extends => m.(extendsPrefix := s)
    case Collate => m.(collate := s)
    case _ => m
  }

  lemma TextOnTop(k: Keyword, s: string, x: FieldMeta, b: FieldMeta, a: FieldMeta)
    requires OnTop(x, b, a)
    ensures OnTop(WithText(k, s, x), WithText(k, s, b), a)
  {
  }

  function Flagged(k: Keyword, m: FieldMeta): FieldMeta {
    if FlagOf(k).Some? then m.Set(FlagOf(k).value) else m
  }

  lemma TakesText(k: Keyword, p: Option<string>, next: Option<RawToken>, m: FieldMeta)
    requires k in TEXTS
    ensures p.Some? ==> TakeKeyword(k, p, next, m) == Ok((WithText(k, p.value, Flagged(k, m)), 1))
    ensures p == None && next.Some? && (k == Default || k == Collate) ==>
              TakeKeyword(k, p, next, m) == Ok((WithText(k, next.value.name, Flagged(k, m)), 2))
    ensures p == None && next == None && (k == Default || k == Collate) ==> TakeKeyword(k, p, next, m).Err?
    ensures p == None && k != Default && k != Collate ==> TakeKeyword(k, p, next, m) == Ok((Flagged(k, m), 1))
  {
    hide Lower, Spelling;
  }

  /** Keywords that take a text. */
  const TEXTS: set<Keyword> := {Index, Unique, Default, Comment, Extends, Collate}

  predicate TakenOnTop(t: Result<(FieldMeta, nat), TagError>, u: (FieldMeta, nat), a: FieldMeta) {
    t.Ok? && t.value.1 == u.1 && OnTop(t.value.0, u.0, a)
  }

  lemma FlagOnTop(k: Keyword, p: Option<string>, next: Option<RawToken>, x: FieldMeta, b: FieldMeta, a: FieldMeta)
    requires OnTop(x, b, a) && TakeKeyword(k, p, next, b).Ok?
    requires k !in TEXTS
    ensures TakenOnTop(TakeKeyword(k, p, next, x), TakeKeyword(k, p, next, b).value, a)
  {
    hide Lower, Spelling, OnTop;
    var f := if k == Jsonb then AsJson else if k == Not then NotNullable else FlagOf(k).value;
    SetOnTop(x, b, a, f);
  }

  lemma KeywordOnTop(k: Keyword, p: Option<string>, next: Option<RawToken>, x: FieldMeta, b: FieldMeta, a: FieldMeta)
    requires OnTop(x, b, a) && TakeKeyword(k, p, next, b).Ok?
    ensures TakenOnTop(TakeKeyword(k, p, next, x), TakeKeyword(k, p, next, b).value, a)
  {
    hide TakeKeyword, OnTop, WithText;
    if k !in TEXTS {
      FlagOnTop(k, p, next, x, b, a);
    } else {
      TakesText(k, p, next, x);
      TakesText(k, p, next, b);
      if FlagOf(k).Some? {
        SetOnTop(x, b, a, FlagOf(k).value);
      }
      var x', b' := Flagged(k, x), Flagged(k, b);
      if p.Some? {
        TextOnTop(k, p.value, x', b', a);
      } else if k == Default || k == Collate {
        TextOnTop(k, next.value.name, x', b', a);
      }
    }
  }

  lemma TakeOnTop(tok: RawToken, next: Option<RawToken>, x: FieldMeta, b: FieldMeta, a: FieldMeta)
    requires OnTop(x, b, a) && Take(tok, next, b).Ok?
    ensures var t, u := Take(tok, next, x), Take(tok, next, b);
      t.Ok? && t.value.1 == u.value.1 && OnTop(t.value.0, u.value.0, a)
  {
    hide Lower, Classify, TakeKeyword;
    var k := Classify(tok.name);
    if !tok.quoted && k.Some? {
      KeywordOnTop(k.value, FirstParam(tok), next, x, b, a);
    }
  }

  lemma {:induction false} ParseOnTop(toks: seq<RawToken>, x: FieldMeta, b: FieldMeta, a: FieldMeta)
    requires OnTop(x, b, a) && Parse(toks, b).Ok?
    ensures Parse(toks, x).Ok? && OnTop(Parse(toks, x).value, Parse(toks, b).value, a)
    decreases |toks|
  {
    hide Take, OnTop;
    if toks != [] {
      TakeOnTop(toks[0], Next(toks), x, b, a);
      TakeUses(toks[0], Next(toks), b);
      var n := Take(toks[0], Next(toks), b).value.1;
      ParseOnTop(toks[n..], Take(toks[0], Next(toks), x).value.0, Take(toks[0], Next(toks), b).value.0, a);
    }
  }

  /**
   * Two lists of tokens that parse by themselves parse one behind the other: the flags of both, and of two
   * texts for one thing the later.
   */
  lemma LaterCounts(a: seq<RawToken>, b: seq<RawToken>)
    requires Parse(a, EMPTY).Ok? && Parse(b, EMPTY).Ok?
    ensures Parse(a + b, EMPTY).Ok? && OnTop(Parse(a + b, EMPTY).value, Parse(b, EMPTY).value, Parse(a, EMPTY).value)
  {
    var m := Parse(a, EMPTY).value;
    ParseAppend(a, b, EMPTY);
    assert m.flags + {} == m.flags;
    assert OnTop(m, EMPTY, m);
    ParseOnTop(b, m, EMPTY, m);
  }
}
