/** Printing a field's meta as a tag, parsing it back, and the short forms that mean the same. */
module TagRoundTrip {
  import opened Ascii
  import opened Sequences
  import opened TagTokenizer
  import opened TagPrinter
  import opened FieldTag
  import opened TagRescan

  // ---- words and keywords ----------------------------------------------------------------------

  lemma SpellingIsLower(k: Keyword)
    ensures Lower(Spelling(k)) == Spelling(k)
  {
  }

  lemma Classified(k: Keyword)
    ensures Classify(Spelling(k)) == Some(k)
  {
    SpellingIsLower(k);
    hide Lower;
  }

  lemma SpellingIsPlain(k: Keyword)
    ensures Spelling(k) != "" && forall c :: c in Spelling(k) ==> Plain(c)
  {
  }

  // ---- parsing in two halves -------------------------------------------------------------------

  /** A token that can stand last means the same whatever follows it. */
  lemma TakeAlone(tok: RawToken, next: Option<RawToken>, m: FieldMeta)
    requires Take(tok, None, m).Ok?
    ensures Take(tok, next, m) == Take(tok, None, m) && Take(tok, None, m).value.1 == 1
  {
  }

  /** What parses by itself is not affected by what comes behind it. */
  lemma {:induction false} ParseAppend(a: seq<RawToken>, b: seq<RawToken>, m: FieldMeta)
    requires Parse(a, m).Ok?
    ensures Parse(a + b, m) == Parse(b, Parse(a, m).value)
    decreases |a|
  {
    hide Take;
    if a == [] {
      assert a + b == b;
    } else {
      var n := Take(a[0], Next(a), m).value.1;
      TakeUses(a[0], Next(a), m);
      if |a| == 1 {
        TakeAlone(a[0], Next(a + b), m);
      }
      ParseAppend(a[n..], b, Take(a[0], Next(a), m).value.0);
      assert (a + b)[n..] == a[n..] + b;
    }
  }

  /** Equal ways to write the middle of a tag. */
  lemma SwapMiddle(pre: seq<RawToken>, a: seq<RawToken>, b: seq<RawToken>, post: seq<RawToken>, m: FieldMeta)
    requires forall m' :: Parse(a, m').Ok? && Parse(a, m') == Parse(b, m')
    ensures Parse(pre, m).Ok? ==> Parse(pre + a + post, m) == Parse(pre + b + post, m)
  {
    hide Take;
    if Parse(pre, m).Err? {
      return;
    }
    var m' := Parse(pre, m).value;
    forall x: seq<RawToken> | Parse(x, m') == Parse(a, m')
      ensures Parse(pre + x + post, m) == Parse(post, Parse(a, m').value)
    {
      assert pre + x + post == pre + (x + post);
      ParseAppend(pre, x + post, m);
      ParseAppend(x, post, m');
    }
  }

  // ---- the canonical tag of a field ------------------------------------------------------------

  /** The keywords of the canonical form, in its order. */
  const ORDER: seq<Keyword> :=
    [Dash, OnlyRead, OnlyWrite, Pk, Autoincr, Notnull, Null, Index, Unique, Default, Comment, Created, Updated,
     Version, Utc, Local, Extends, Unsigned, Collate, Json]

  /** The flag a keyword of the canonical form sets. */
  function FlagOf(k: Keyword): Option<Flag> {
    match k
    case Dash => Some(Ignored) case OnlyRead => Some(ReadOnly) case OnlyWrite => Some(WriteOnly)
    case Pk => Some(PrimaryKey) case Autoincr => Some(AutoIncrement) case Notnull => Some(NotNullable)
    case Null => Some(Nullable) case Index => Some(Indexed) case Unique => Some(InUnique)
    case Default => Some(HasDefault) case Created => Some(OnCreate) case Updated => Some(OnUpdate)
    case Version => Some(Versioned) case Utc => Some(InUtc) case Local => Some(InLocal) case Extends => Some(Embedded)
    case Unsigned => Some(IsUnsigned) case Json => Some(AsJson)
    case _ => None
  }

  /** Whether a field's meta calls for a keyword. */
  predicate Wanted(k: Keyword, m: FieldMeta) {
    match k
    case Comment => m.comment != ""
    case Collate => m.collate != ""
    case _ => FlagOf(k).Some? && FlagOf(k).value in m.flags
  }

  function Unless(text: string): Option<string> {
    if text == "" then None else Some(text)
  }

  /** The text in the parentheses behind a keyword. */
  function ParamOf(k: Keyword, m: FieldMeta): Option<string> {
    match k
    case Index => Unless(m.indexName) case Unique => Unless(m.uniqueName) case Extends => Unless(m.extendsPrefix)
    case Default => Some(m.default) case Comment => Some(m.comment) case Collate => Some(m.collate)
    case _ => None
  }

  function Call(word: string, p: Option<string>): Token {
    Token(Bare(word), if p.Some? then [Quoted(p.value)] else [])
  }

  function Piece(k: Keyword, m: FieldMeta): seq<Token> {
    if Wanted(k, m) then [Call(Spelling(k), ParamOf(k, m))] else []
  }

  function Pieces(ks: seq<Keyword>, m: FieldMeta): seq<Token> {
    if ks == [] then [] else Piece(ks[0], m) + Pieces(ks[1..], m)
  }

  function Column(m: FieldMeta): seq<Token> {
    if m.columnName == "" then [] else [Token(Quoted(m.columnName), [])]
  }

  /** A type with white space at its end needs a token behind it; a comment without text says nothing. */
  function Filler(m: FieldMeta): seq<Token> {
    if Column(m) + Pieces(ORDER, m) == [] && m.sqlType != "" && IsSpace(m.sqlType[|m.sqlType| - 1])
    then [Call("comment", None)] else []
  }

  /** What stands behind the type: column name and keywords. */
  function Rest(m: FieldMeta): seq<Token> {
    Column(m) + Pieces(ORDER, m) + Filler(m)
  }

  /** A token of the tag, with its raw text, that names a type. */
  predicate IsType(r: string, tok: RawToken) {
    OneToken(r, tok) && !tok.quoted && Classify(tok.name).None? && IsSqlType(tok.name)
  }

  ghost predicate TypeText(r: string) {
    exists tok :: IsType(r, tok)
  }

  /** Names and values are present only with the flag they belong to. */
  predicate Tidy(m: FieldMeta) {
    && (m.indexName != "" ==> Indexed in m.flags) && (m.uniqueName != "" ==> InUnique in m.flags)
    && (m.default != "" ==> HasDefault in m.flags) && (m.extendsPrefix != "" ==> Embedded in m.flags)
  }

  /** A meta some tag can have. */
  ghost predicate Consistent(m: FieldMeta) {
    Tidy(m) && (m.sqlType != "" ==> TypeText(m.sqlType))
  }

  lemma KeywordTidy(k: Keyword, p: Option<string>, next: Option<RawToken>, m: FieldMeta)
    requires Tidy(m) && TakeKeyword(k, p, next, m).Ok?
    ensures Tidy(TakeKeyword(k, p, next, m).value.0)
  {
    hide Spelling, Lower;
  }

  lemma TakeTidy(tok: RawToken, next: Option<RawToken>, m: FieldMeta)
    requires Tidy(m) && Take(tok, next, m).Ok?
    ensures Tidy(Take(tok, next, m).value.0)
  {
    var k := Classify(tok.name);
    if !tok.quoted && k.Some? {
      KeywordTidy(k.value, FirstParam(tok), next, m);
    }
  }

  /** What a parse leaves behind is tidy. */
  lemma {:induction false} ParseTidy(toks: seq<RawToken>, m: FieldMeta)
    requires Tidy(m) && Parse(toks, m).Ok?
    ensures Tidy(Parse(toks, m).value)
    decreases |toks|
  {
    if toks != [] {
      var step := Take(toks[0], Next(toks), m).value;
      TakeUses(toks[0], Next(toks), m);
      TakeTidy(toks[0], Next(toks), m);
      ParseTidy(toks[step.1..], step.0);
    }
  }

  /** Whether some of the keywords set a flag. */
  predicate SetBy(f: Flag, ks: set<Keyword>) {
    exists k :: k in ks && FlagOf(k) == Some(f)
  }

  function FlagsOf(ks: set<Keyword>, m: FieldMeta): set<Flag> {
    set f | f in m.flags && SetBy(f, ks)
  }

  lemma NoFlags(m: FieldMeta)
    ensures FlagsOf({}, m) == {}
  {
  }

  /** One more keyword adds its own flag, if the meta has it. */
  lemma OneMoreFlag(k: Keyword, ks: set<Keyword>, m: FieldMeta)
    ensures FlagsOf(ks + {k}, m) ==
            if FlagOf(k).Some? && FlagOf(k).value in m.flags then FlagsOf(ks, m) + {FlagOf(k).value} else FlagsOf(ks, m)
  {
    forall f | f in m.flags ensures SetBy(f, ks + {k}) <==> SetBy(f, ks) || FlagOf(k) == Some(f) {
      assert k in ks + {k};
      assert forall j :: j in ks ==> j in ks + {k};
    }
  }

  function KeywordOf(f: Flag): (k: Keyword)
    ensures k !in UNUSED && FlagOf(k) == Some(f)
  {
    match f
    case Ignored => Dash case ReadOnly => OnlyRead case WriteOnly => OnlyWrite case PrimaryKey => Pk
    case AutoIncrement => Autoincr case NotNullable => Notnull case Nullable => Null case Indexed => Index
    case InUnique => Unique case HasDefault => Default case OnCreate => Created case OnUpdate => Updated
    case Versioned => Version case InUtc => Utc case InLocal => Local case Embedded => Extends
    case IsUnsigned => Unsigned case AsJson => Json
  }

  lemma AllFlags(ks: set<Keyword>, m: FieldMeta)
    requires forall k: Keyword :: k in UNUSED || k in ks
    ensures FlagsOf(ks, m) == m.flags
  {
    forall f | f in m.flags ensures SetBy(f, ks) {
      assert KeywordOf(f) in ks;
    }
  }

  function Known(ks: set<Keyword>, k: Keyword, text: string): string {
    if k in ks then text else ""
  }

  /** The part of a meta that its type, its column name and some keywords say. */
  function Part(ks: set<Keyword>, m: FieldMeta): FieldMeta {
    FieldMeta(FlagsOf(ks, m), m.columnName, m.sqlType, Known(ks, Index, m.indexName),
              Known(ks, Unique, m.uniqueName), Known(ks, Default, m.default), Known(ks, Comment, m.comment),
              Known(ks, Extends, m.extendsPrefix), Known(ks, Collate, m.collate))
  }

  lemma FirstOfRaw(t: Token)
    ensures t.params == [] ==> FirstParam(Raw(t)) == None
    ensures t.params != [] && t.params[0].Quoted? ==> FirstParam(Raw(t)) == Some(t.params[0].text)
  {
    if t.params != [] && t.params[0].Quoted? {
      UnquoteWord(t.params[0]);
    }
  }

  lemma ParseOne(tok: RawToken, m: FieldMeta)
    requires Take(tok, None, m).Ok? && Take(tok, None, m).value.1 == 1
    ensures Parse([tok], m) == Ok(Take(tok, None, m).value.0)
  {
    hide Take;
    assert [tok][1..] == [];
  }

  lemma TakePiece(p: Option<string>, k: Keyword, ks: set<Keyword>, m: FieldMeta)
    requires p == ParamOf(k, m) && k !in ks && Tidy(m) && Wanted(k, m)
    ensures TakeKeyword(k, p, None, Part(ks, m)) == Ok((Part(ks + {k}, m), 1))
  {
    hide Spelling, Lower, FlagsOf;
    OneMoreFlag(k, ks, m);
  }

  lemma Unwanted(k: Keyword, ks: set<Keyword>, m: FieldMeta)
    requires !Wanted(k, m) && Tidy(m)
    ensures Part(ks + {k}, m) == Part(ks, m)
  {
    OneMoreFlag(k, ks, m);
  }

  lemma PieceParses(k: Keyword, ks: set<Keyword>, m: FieldMeta)
    requires k !in ks && Tidy(m)
    ensures Parse(Raws(Piece(k, m)), Part(ks, m)) == Ok(Part(ks + {k}, m))
  {
    if Wanted(k, m) {
      var tok := Raw(Call(Spelling(k), ParamOf(k, m)));
      assert Raws(Piece(k, m)) == [tok];
      Classified(k);
      FirstOfRaw(Call(Spelling(k), ParamOf(k, m)));
      TakePiece(FirstParam(tok), k, ks, m);
      ParseOne(tok, Part(ks, m));
    } else {
      Unwanted(k, ks, m);
    }
  }

  lemma RawsAppend(a: seq<Token>, b: seq<Token>)
    ensures Raws(a + b) == Raws(a) + Raws(b)
  {
  }

  lemma {:induction false} PiecesParse(todo: seq<Keyword>, ks: set<Keyword>, m: FieldMeta)
    requires Tidy(m) && Distinct(todo) && forall k :: k in todo ==> k !in ks
    ensures Parse(Raws(Pieces(todo, m)), Part(ks, m)) == Ok(Part(ks + (set k | k in todo), m))
  {
    if todo == [] {
      assert ks + (set k | k in todo) == ks;
    } else {
      PieceParses(todo[0], ks, m);
      PiecesParse(todo[1..], ks + {todo[0]}, m);
      assert ks + {todo[0]} + (set k | k in todo[1..]) == ks + (set k | k in todo);
      RawsAppend(Piece(todo[0], m), Pieces(todo[1..], m));
      ParseAppend(Raws(Piece(todo[0], m)), Raws(Pieces(todo[1..], m)), Part(ks, m));
    }
  }

  /** What a type leaves behind when it comes first. */
  function Typed(m: FieldMeta): FieldMeta {
    EMPTY.(sqlType := m.sqlType)
  }

  lemma ColumnParses(m: FieldMeta)
    ensures Parse(Raws(Column(m)), Typed(m)) == Ok(Part({}, m))
  {
    NoFlags(m);
    if m.columnName != "" {
      var tok := Raw(Token(Quoted(m.columnName), []));
      assert Raws(Column(m)) == [tok];
      ParseOne(tok, Typed(m));
    }
  }

  lemma FillerParses(m: FieldMeta)
    ensures Parse(Raws(Filler(m)), m) == Ok(m)
  {
    if Filler(m) != [] {
      var tok := Raw(Call("comment", None));
      assert Raws(Filler(m)) == [tok];
      FirstOfRaw(Call("comment", None));
      Classified(Comment);
      assert TakeKeyword(Comment, None, None, m) == Ok((m, 1));
      ParseOne(tok, m);
    }
  }

  /** The keywords the canonical form never uses. */
  const UNUSED: set<Keyword> := {Not, Deleted, Jsonb, Cache, Nocache}

  lemma OrderIsComplete(k: Keyword)
    requires k !in UNUSED
    ensures k in ORDER
  {
  }

  function Position(k: Keyword): nat {
    match k
    case Dash => 0 case OnlyRead => 1 case OnlyWrite => 2 case Pk => 3 case Autoincr => 4 case Notnull => 5
    case Null => 6 case Index => 7 case Unique => 8 case Default => 9 case Comment => 10 case Created => 11
    case Updated => 12 case Version => 13 case Utc => 14 case Local => 15 case Extends => 16 case Unsigned => 17
    case Collate => 18 case Json => 19
    case _ => 20
  }

  lemma OrderIsDistinct()
    ensures Distinct(ORDER)
  {
    assert forall i :: 0 <= i < |ORDER| ==> Position(ORDER[i]) == i;
  }

  lemma AllParts(m: FieldMeta, ks: set<Keyword>)
    requires Tidy(m) && forall k: Keyword :: k in UNUSED || k in ks
    ensures Part(ks, m) == m
  {
    AllFlags(ks, m);
    assert Index in ks && Unique in ks && Default in ks && Comment in ks && Extends in ks && Collate in ks;
  }

  function Listed(ks: seq<Keyword>): set<Keyword> {
    set k | k in ks
  }

  lemma EverythingListed()
    ensures forall k: Keyword :: k in UNUSED || k in Listed(ORDER)
  {
    forall k: Keyword ensures k in UNUSED || k in Listed(ORDER) {
      if k !in UNUSED {
        OrderIsComplete(k);
      }
    }
  }

  lemma KeywordsParse(m: FieldMeta)
    requires Tidy(m)
    ensures Parse(Raws(Pieces(ORDER, m)), Part({}, m)) == Ok(m)
  {
    hide Parse, Pieces, Part, Tidy, Distinct;
    OrderIsDistinct();
    PiecesParse(ORDER, {}, m);
    EverythingListed();
    assert {} + Listed(ORDER) == Listed(ORDER);
    AllParts(m, Listed(ORDER));
  }

  lemma ParseThree(a: seq<RawToken>, b: seq<RawToken>, c: seq<RawToken>, m: FieldMeta, m1: FieldMeta, m2: FieldMeta)
    requires Parse(a, m) == Ok(m1) && Parse(b, m1) == Ok(m2)
    ensures Parse(a + b + c, m) == Parse(c, m2)
  {
    ParseAppend(a, b, m);
    ParseAppend(a + b, c, m);
  }

  /** A tidy meta comes back from its type and the tokens behind it. */
  lemma RestParses(m: FieldMeta)
    requires Tidy(m)
    ensures Parse(Raws(Rest(m)), Typed(m)) == Ok(m)
  {
    var a, b, c := Column(m), Pieces(ORDER, m), Filler(m);
    RawsAppend(a + b, c);
    RawsAppend(a, b);
    ColumnParses(m);
    KeywordsParse(m);
    FillerParses(m);
    ParseThree(Raws(a), Raws(b), Raws(c), Typed(m), Part({}, m), m);
  }

  lemma TypeParses(r: string, tok: RawToken, rest: seq<RawToken>, m: FieldMeta)
    requires IsType(r, tok) && r == m.sqlType
    ensures Parse([tok] + rest, EMPTY) == Parse(rest, Typed(m))
  {
    hide OneToken, IsSqlType, Classify;
    assert OneToken(r, tok);
    RawIsText(r, tok);
    var all := [tok] + rest;
    assert Take(tok, Next(all), EMPTY) == Ok((Typed(m), 1));
    assert all[1..] == rest;
  }

  lemma RawIsText(r: string, tok: RawToken)
    requires OneToken(r, tok)
    ensures tok.raw == r && r != ""
  {
  }

  // ---- at the level of text ----------------------------------------------------------------------

  lemma {:induction false} PiecesWellFormed(ks: seq<Keyword>, m: FieldMeta)
    ensures forall t :: t in Pieces(ks, m) ==> WellFormed(t)
  {
    if ks != [] {
      SpellingIsPlain(ks[0]);
      PiecesWellFormed(ks[1..], m);
    }
  }

  /** One gap of at least one space between any two neighbouring tokens. */
  ghost predicate Fits(gaps: seq<nat>, ts: seq<Token>) {
    Spread(gaps) && if ts == [] then gaps == [] else |ts| == |gaps| + 1
  }

  ghost function Text(ts: seq<Token>, gaps: seq<nat>): string
    requires Fits(gaps, ts)
  {
    if ts == [] then "" else PrintTag(ts, gaps)
  }

  lemma ParseText(ts: seq<Token>, gaps: seq<nat>)
    requires Fits(gaps, ts) && forall t :: t in ts ==> WellFormed(t)
    ensures ParseTag(Text(ts, gaps)) == Parse(Raws(ts), EMPTY)
  {
    if ts != [] {
      SplitUndoesPrint(ts, gaps);
    }
  }

  lemma WordsAreText(w: string)
    requires IsSqlWord(w)
    ensures w != "" && IsLower(w[0])
  {
  }

  /** A type does not start with white space. */
  lemma TypeStarts(r: string, tok: RawToken)
    requires IsType(r, tok)
    ensures r != "" && !IsSpace(r[0])
  {
    hide Classify, OneToken;
    NameBegins(r, tok);
    hide IsSqlType;
    assert IsSqlType(tok.name) ==> tok.name != "" && !IsSpace(tok.name[0]) by {
      SqlStarts(tok.name);
    }
  }

  lemma SqlStarts(name: string)
    ensures IsSqlType(name) ==> name != "" && !IsSpace(name[0])
  {
    if IsSqlType(name) {
      WordsAreText(Lower(name));
      assert Lower(name)[0] == ToLower(name[0]);
    }
  }

  /** A type and the tokens behind it. */
  lemma TypedSplits(r: string, tok: RawToken, ts: seq<Token>, gaps: seq<nat>)
    requires IsType(r, tok) && |ts| == |gaps| && Spread(gaps) && forall t :: t in ts ==> WellFormed(t)
    requires ts == [] ==> !IsSpace(r[|r| - 1])
    ensures Split(r + LayoutFrom(ts, gaps)) == Ok([tok] + Raws(ts))
  {
    var s, st := r + LayoutFrom(ts, gaps), Feed(r, Fresh([], 0)).value;
    TypeStarts(r, tok);
    RestStartsWithSpace(ts, gaps);
    hide Feed, Scan, Classify, IsSqlType, Lower;
    if ts != [] {
      LayoutEnd(ts, gaps);
    }
    assert s[0] == r[0] && !IsSpace(s[|s| - 1]);
    Untrimmed(s);
    FeedAppend(r, LayoutFrom(ts, gaps), Fresh([], 0));
    ScanMore(ts, gaps, st);
    assert [] + [tok] == [tok];
  }

  /** Gaps for the canonical text: between its tokens, and behind the type. */
  ghost predicate Spaced(gaps: seq<nat>, m: FieldMeta) {
    if m.sqlType == "" then Fits(gaps, Rest(m)) else Spread(gaps) && |gaps| == |Rest(m)|
  }

  /** The canonical tag: the type as it was written, column name and keywords. */
  ghost function CanonicalText(m: FieldMeta, gaps: seq<nat>): string
    requires Spaced(gaps, m)
  {
    if m.sqlType == "" then Text(Rest(m), gaps) else m.sqlType + LayoutFrom(Rest(m), gaps)
  }

  lemma CommentWellFormed()
    ensures WellFormed(Call("comment", None))
  {
    SpellingIsPlain(Comment);
  }

  lemma ColumnWellFormed(m: FieldMeta)
    ensures forall t :: t in Column(m) ==> WellFormed(t)
  {
  }

  lemma RestWellFormed(m: FieldMeta)
    ensures forall t :: t in Rest(m) ==> WellFormed(t)
  {
    hide Pieces, WellFormed, Call, Column;
    ColumnWellFormed(m);
    PiecesWellFormed(ORDER, m);
    CommentWellFormed();
  }

  /**
   * Printing a consistent meta canonically, with any spacing, and parsing the text gives the meta
   * back.
   */
  lemma MetaRoundTrip(m: FieldMeta, gaps: seq<nat>)
    requires Consistent(m) && Spaced(gaps, m)
    ensures ParseTag(CanonicalText(m, gaps)) == Ok(m)
  {
    hide Parse, IsType, Tidy, Pieces;
    RestWellFormed(m);
    RestParses(m);
    if m.sqlType == "" {
      ParseText(Rest(m), gaps);
    } else {
      var tok :| IsType(m.sqlType, tok);
      TypedSplits(m.sqlType, tok, Rest(m), gaps);
      TypeParses(m.sqlType, tok, Raws(Rest(m)), m);
    }
  }

  lemma TakeType(tok: RawToken, next: Option<RawToken>, m: FieldMeta)
    requires OneToken(tok.raw, tok) && (m.sqlType != "" ==> TypeText(m.sqlType)) && Take(tok, next, m).Ok?
    ensures var m' := Take(tok, next, m).value.0; m'.sqlType != "" ==> TypeText(m'.sqlType)
  {
    hide OneToken, Classify, IsSqlType, Spelling, Lower, FirstParam;
    var m' := Take(tok, next, m).value.0;
    if !tok.quoted && Classify(tok.name).None? {
      assert IsType(tok.raw, tok);
    } else {
      assert m'.sqlType == m.sqlType;
    }
  }

  lemma {:induction false} ParseType(toks: seq<RawToken>, m: FieldMeta)
    requires AllRetraced(toks) && (m.sqlType != "" ==> TypeText(m.sqlType)) && Parse(toks, m).Ok?
    ensures var m' := Parse(toks, m).value; m'.sqlType != "" ==> TypeText(m'.sqlType)
    decreases |toks|
  {
    hide Take, TypeText, OneToken;
    if toks != [] {
      var step := Take(toks[0], Next(toks), m).value;
      TakeUses(toks[0], Next(toks), m);
      TakeType(toks[0], Next(toks), m);
      ParseType(toks[step.1..], step.0);
    }
  }

  /** Whatever a tag parses to is consistent. */
  lemma ParsedIsConsistent(tag: string)
    requires ParseTag(tag).Ok?
    ensures Consistent(ParseTag(tag).value)
  {
    hide Parse, TypeText;
    SplitRetraced(tag);
    ParseTidy(Split(tag).value, EMPTY);
    ParseType(Split(tag).value, EMPTY);
  }

  /** Whatever tag a meta came from, its canonical form says the same. */
  lemma NormalForm(tag: string, gaps: seq<nat>)
    requires ParseTag(tag).Ok? && Spaced(gaps, ParseTag(tag).value)
    ensures ParseTag(CanonicalText(ParseTag(tag).value, gaps)) == ParseTag(tag)
  {
    hide ParseTag, Consistent;
    ParsedIsConsistent(tag);
    MetaRoundTrip(ParseTag(tag).value, gaps);
  }

  /** The consistent metas are exactly those some tag parses to. */
  lemma ConsistentIff(m: FieldMeta)
    ensures Consistent(m) <==> exists tag :: ParseTag(tag) == Ok(m)
  {
    hide ParseTag, Consistent;
    if Consistent(m) {
      var n := if m.sqlType == "" && Rest(m) != [] then |Rest(m)| - 1 else |Rest(m)|;
      MetaRoundTrip(m, seq(n, _ => 1));
    }
    if tag: string :| ParseTag(tag) == Ok(m) {
      ParsedIsConsistent(tag);
    }
  }

  // ---- short forms -------------------------------------------------------------------------------

  /** The words of a form: two tokens, or the one that says the same. */
  ghost predicate SameForm(two: seq<Token>, one: Token) {
    && |two| == 2 && two[0].name.Bare? && two[0].params == []
    && one.name.Bare?
    && var k := Classify(two[0].name.text);
       match k
       case Some(Not) =>
         two[1].name.Bare? && Lower(two[1].name.text) == "null" && Classify(one.name.text) == Some(Notnull)
       case Some(Default) => Classify(one.name.text) == Some(Default) && one.params == [Quoted(two[1].name.text)]
       case Some(Collate) => Classify(one.name.text) == Some(Collate) && one.params == [Quoted(two[1].name.text)]
       case _ => false
  }

  lemma ParseTwo(a: RawToken, b: RawToken, m: FieldMeta)
    requires Take(a, Some(b), m).Ok? && Take(a, Some(b), m).value.1 == 2
    ensures Parse([a, b], m) == Ok(Take(a, Some(b), m).value.0)
  {
    hide Take;
    assert [a, b][2..] == [];
  }

  lemma FormsTakenAlike(two: seq<Token>, one: Token, m: FieldMeta)
    requires SameForm(two, one)
    ensures var t, o := Take(Raw(two[0]), Some(Raw(two[1])), m), Take(Raw(one), None, m);
      t.Ok? && o.Ok? && t.value.1 == 2 && o.value.1 == 1 && t.value.0 == o.value.0
  {
    hide Spelling, IsSqlType, Lower, Classify, FirstParam;
    FirstOfRaw(two[0]);
    FirstOfRaw(one);
  }

  lemma FormsParseAlike(two: seq<Token>, one: Token, m: FieldMeta)
    requires SameForm(two, one)
    ensures Parse(Raws(two), m).Ok? && Parse(Raws(two), m) == Parse(Raws([one]), m)
  {
    hide Take;
    FormsTakenAlike(two, one, m);
    ParseOne(Raw(one), m);
    ParseTwo(Raw(two[0]), Raw(two[1]), m);
    assert Raws(two) == [Raw(two[0]), Raw(two[1])] && Raws([one]) == [Raw(one)];
  }

  /**
   * "not null", "default x", "default 'x'" and their like, in any mix of cases, mean what "notnull",
   * "default('x')" and "collate('x')" mean, anywhere in a tag behind tokens that parse by themselves.
   */
  lemma ShortForms(pre: seq<Token>, two: seq<Token>, one: Token, post: seq<Token>, gaps: seq<nat>, gaps': seq<nat>)
    requires SameForm(two, one)
    requires forall t :: t in pre + two + [one] + post ==> WellFormed(t)
    requires Fits(gaps, pre + two + post) && Fits(gaps', pre + [one] + post)
    ensures Parse(Raws(pre), EMPTY).Ok? ==>
              ParseTag(Text(pre + two + post, gaps)) == ParseTag(Text(pre + [one] + post, gaps'))
  {
    forall t | t in pre + two + post || t in pre + [one] + post ensures WellFormed(t) {
      assert t in pre + two + [one] + post;
    }
    ParseText(pre + two + post, gaps);
    ParseText(pre + [one] + post, gaps');
    RawsAppend(pre + two, post);
    RawsAppend(pre, two);
    RawsAppend(pre + [one], post);
    RawsAppend(pre, [one]);
    forall m: FieldMeta ensures Parse(Raws(two), m).Ok? && Parse(Raws(two), m) == Parse(Raws([one]), m) {
      FormsParseAlike(two, one, m);
    }
    SwapMiddle(Raws(pre), Raws(two), Raws([one]), Raws(post), EMPTY);
  }
}
