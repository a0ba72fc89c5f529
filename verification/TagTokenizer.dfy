/** The orm tag tokenizer: quotes, escapes, parentheses and spaces, character by character. */
module TagTokenizer {
  import opened Sequences

  datatype RawToken = RawToken(name: string, quoted: bool, params: seq<string>, raw: string, hasCond: bool)

  datatype SyntaxError =
    | QuoteInsideWord(at: nat)
    | CommaOutside(at: nat)
    | NestedParen(at: nat)
    | UnopenedParen(at: nat)
    | UnclosedQuote
    | UnclosedParen

  const QUOTE: char := '\''

  /** Unicode white space, as strings.TrimSpace sees it. */
  predicate IsSpace(c: char) {
    '\t' <= c <= '\r' || c == ' ' || c == '\U{0085}' || c == '\U{00A0}' || c == '\U{1680}' ||
    '\U{2000}' <= c <= '\U{200A}' || c == '\U{2028}' || c == '\U{2029}' || c == '\U{202F}' ||
    c == '\U{205F}' || c == '\U{3000}'
  }

  function TrimLeft(s: string): (t: string)
    ensures t != [] ==> !IsSpace(t[0])
    ensures |t| <= |s|
  {
    if s != [] && IsSpace(s[0]) then TrimLeft(s[1..]) else s
  }

  function TrimRight(s: string): (t: string)
    ensures t != [] ==> !IsSpace(t[|t| - 1])
    ensures t <= s
  {
    if s != [] && IsSpace(s[|s| - 1]) then TrimRight(s[..|s| - 1]) else s
  }

  function TrimSpace(s: string): (t: string)
    ensures t != [] ==> !IsSpace(t[0]) && !IsSpace(t[|t| - 1])
  {
    TrimRight(TrimLeft(s))
  }

  /** Replaces '' by ', left to right. */
  function Unescape(s: string): string {
    if s == [] then []
    else if |s| >= 2 && s[0] == QUOTE && s[1] == QUOTE then [QUOTE] + Unescape(s[2..])
    else [s[0]] + Unescape(s[1..])
  }

  function Unquote(s: string): string {
    Unescape(if |s| >= 2 && s[0] == QUOTE && s[|s| - 1] == QUOTE then s[1..|s| - 1] else s)
  }

  function UnquoteParam(s: string): string {
    Unquote(TrimSpace(s))
  }

  /**
   * What has been scanned so far. raw is the text of the current token, name the part of it that is
   * its name once the name's end has been seen, param the text of the current parameter.
   */
  datatype Scanner = Scanner(
    tokens: seq<RawToken>, params: seq<string>, raw: string, name: Option<string>, param: string,
    inQuote: bool, inParen: bool, curQuoted: bool, seenParen: bool, haveName: bool, at: nat)
  {
    /** Takes text into the current token, and into the current parameter if there is one. */
    function Eat(text: string): Scanner {
      this.(raw := if haveName then raw + text else text, haveName := true,
            param := if inParen then param + text else "", at := at + |text|)
    }

    function Flushed(): RawToken {
      var text := if name.Some? then name.value else raw;
      RawToken(if curQuoted then Unquote(text) else text, curQuoted, params, raw, params != [])
    }

    function Flush(): Scanner {
      if haveName then Fresh(tokens + [Flushed()], at) else Fresh(tokens, at)
    }
  }

  /** Between tokens, at a position. */
  function Fresh(tokens: seq<RawToken>, at: nat): Scanner {
    Scanner(tokens, [], "", None, "", false, false, false, false, false, at)
  }

  /** One character. */
  function Step(c: char, st: Scanner): Result<Scanner, SyntaxError> {
    if c == QUOTE then
      if st.inQuote then
        Ok(st.Eat([c]).(inQuote := false, name := if !st.inParen && st.curQuoted then Some(st.raw + [c]) else st.name))
      else if st.inParen then Ok(st.Eat([c]).(inQuote := true))
      else if st.haveName then Err(QuoteInsideWord(st.at))
      else Ok(st.Eat([c]).(inQuote := true, curQuoted := true))
    else if st.inQuote then Ok(st.Eat([c]))
    else if c == ' ' then
      if st.inParen then Ok(st.Eat([c]).(param := "")) else Ok(st.Flush().(at := st.at + 1))
    else if c == ',' then
      if !st.inParen then Err(CommaOutside(st.at))
      else Ok(st.Eat([c]).(params := st.params + [TrimSpace(st.param)], param := ""))
    else if c == '(' then
      if st.inParen || st.seenParen then Err(NestedParen(st.at))
      else
        Ok(st.Eat([c]).(inParen := true, seenParen := true, param := "",
                        name := if st.name.Some? then st.name else Some(if st.haveName then st.raw else "")))
    else if c == ')' then
      if !st.inParen then Err(UnopenedParen(st.at))
      else Ok(st.Eat([c]).(inParen := false, params := st.params + [TrimSpace(st.param)], param := ""))
    else Ok(st.Eat([c]))
  }

  /** The scan of what is left; inside quotes a doubled quote is taken whole. */
  function Scan(rest: string, st: Scanner): Result<seq<RawToken>, SyntaxError>
    decreases |rest|
  {
    if rest == "" then
      if st.inQuote then Err(UnclosedQuote)
      else if st.inParen then Err(UnclosedParen)
      else Ok(st.Flush().tokens)
    else if rest[0] == QUOTE && st.inQuote && |rest| > 1 && rest[1] == QUOTE then
      Scan(rest[2..], st.Eat([QUOTE, QUOTE]))
    else
      match Step(rest[0], st)
      case Err(e) => Err(e)
      case Ok(st') => Scan(rest[1..], st')
  }

  function Split(tag: string): Result<seq<RawToken>, SyntaxError> {
    Scan(TrimSpace(tag), Fresh([], 0))
  }

  // ---- the loop over positions -------------------------------------------------------------------

  /** The loop's variables; nameEnd is unset until the name's end has been seen. */
  datatype Cursor = Cursor(
    tokens: seq<RawToken>, params: seq<string>, curStart: nat, paramStart: nat,
    inQuote: bool, inParen: bool, curQuoted: bool, seenParen: bool, nameEnd: Option<nat>, haveName: bool)

  /** The positions kept at position i are in range and in order. */
  predicate InRange(s: string, i: nat, v: Cursor) {
    && i <= |s|
    && (v.haveName ==> v.curStart <= i)
    && (v.nameEnd.Some? ==> v.haveName && v.curStart <= v.nameEnd.value <= i)
    && (v.curQuoted ==> v.haveName && (v.nameEnd.Some? || (v.inQuote && !v.inParen)))
    && (v.inQuote && !v.inParen ==> v.curQuoted && v.nameEnd.None?)
    && (v.inParen ==> v.haveName && v.curStart <= v.paramStart <= i)
    && (!v.haveName ==> v.params == [] && !v.seenParen)
  }

  /** The scanner a cursor stands for. */
  function Seen(s: string, i: nat, v: Cursor): Scanner
    requires InRange(s, i, v)
  {
    Scanner(v.tokens, v.params, if v.haveName then s[v.curStart..i] else "",
            if v.nameEnd.Some? then Some(s[v.curStart..v.nameEnd.value]) else None,
            if v.inParen then s[v.paramStart..i] else "",
            v.inQuote, v.inParen, v.curQuoted, v.seenParen, v.haveName, i)
  }

  /** The token that ends at position end, cut out of the tag. */
  function CutToken(s: string, end: nat, v: Cursor): RawToken
    requires InRange(s, end, v) && v.haveName && !v.inQuote
  {
    RawToken(
      if v.curQuoted then Unquote(s[v.curStart..v.nameEnd.value])
      else if v.nameEnd.Some? then s[v.curStart..v.nameEnd.value]
      else s[v.curStart..end],
      v.curQuoted, v.params, s[v.curStart..end], v.params != [])
  }

  lemma Grow(s: string, from: nat, i: nat, n: nat)
    requires from <= i && (n == 1 || n == 2) && i + n <= |s|
    ensures s[from..i + n] == s[from..i] + if n == 1 then [s[i]] else [s[i], s[i + 1]]
  {
  }

  /** Moving on without changing anything is eating what was passed. */
  lemma PassOver(s: string, i: nat, n: nat, v: Cursor)
    requires InRange(s, i, v) && v.haveName && (n == 1 || n == 2) && i + n <= |s|
    ensures InRange(s, i + n, v)
    ensures Seen(s, i + n, v) == Seen(s, i, v).Eat(if n == 1 then [s[i]] else [s[i], s[i + 1]])
  {
    Grow(s, v.curStart, i, n);
    if v.inParen {
      Grow(s, v.paramStart, i, n);
    }
  }

  /** The scan goes on from one position as from the next. */
  lemma NextPosition(s: string, i: nat, v: Cursor, v': Cursor)
    requires i < |s| && InRange(s, i, v) && InRange(s, i + 1, v')
    requires !(s[i] == QUOTE && v.inQuote && i + 1 < |s| && s[i + 1] == QUOTE)
    requires Step(s[i], Seen(s, i, v)) == Ok(Seen(s, i + 1, v'))
    ensures Scan(s[i..], Seen(s, i, v)) == Scan(s[i + 1..], Seen(s, i + 1, v'))
  {
    assert s[i..][1..] == s[i + 1..];
  }

  lemma DropTwo(s: string, i: nat)
    requires i + 1 < |s|
    ensures s[i..][2..] == s[i + 2..]
  {
  }

  lemma SkipEscape(s: string, i: nat, v: Cursor)
    requires InRange(s, i, v) && v.inQuote && v.haveName && i + 1 < |s| && s[i] == QUOTE && s[i + 1] == QUOTE
    ensures InRange(s, i + 2, v)
    ensures Scan(s[i..], Seen(s, i, v)) == Scan(s[i + 2..], Seen(s, i + 2, v))
  {
    PassOver(s, i, 2, v);
    DropTwo(s, i);
  }

  lemma Rejected(s: string, i: nat, v: Cursor, e: SyntaxError)
    requires i < |s| && InRange(s, i, v) && !v.inQuote && Step(s[i], Seen(s, i, v)) == Err(e)
    ensures Scan(s[i..], Seen(s, i, v)) == Err(e)
  {
  }

  /** Handles a quote that is not the first of a doubled one, or a character inside quotes. */
  method AdvanceQuote(s: string, i: nat, v: Cursor) returns (r: Result<Cursor, SyntaxError>)
    requires i < |s| && InRange(s, i, v) && (s[i] == QUOTE || v.inQuote)
    ensures r.Ok? ==> InRange(s, i + 1, r.value) && Step(s[i], Seen(s, i, v)) == Ok(Seen(s, i + 1, r.value))
    ensures r.Err? ==> !v.inQuote && Step(s[i], Seen(s, i, v)) == Err(r.error)
  {
    hide Scan, TrimSpace, Unquote;
    var c := s[i];
    assert s[i..i] == "" && s[i..i + 1] == [c];
    if v.haveName {
      PassOver(s, i, 1, v);
    }
    if c != QUOTE {
      return Ok(v);
    }
    if v.inQuote {
      return Ok(v.(inQuote := false, nameEnd := if !v.inParen && v.curQuoted then Some(i + 1) else v.nameEnd));
    }
    if v.inParen {
      return Ok(v.(inQuote := true));
    }
    if v.haveName {
      return Err(QuoteInsideWord(i));
    }
    return Ok(v.(inQuote := true, curQuoted := true, haveName := true, curStart := i));
  }

  /** Handles one character outside quotes other than a quote. */
  method AdvanceOutside(s: string, i: nat, v: Cursor) returns (r: Result<Cursor, SyntaxError>)
    requires i < |s| && InRange(s, i, v) && !v.inQuote && s[i] != QUOTE
    ensures r.Ok? ==> InRange(s, i + 1, r.value) && Step(s[i], Seen(s, i, v)) == Ok(Seen(s, i + 1, r.value))
    ensures r.Err? ==> Step(s[i], Seen(s, i, v)) == Err(r.error)
  {
    hide Scan, TrimSpace, Unquote;
    var c := s[i];
    assert s[i..i] == "" && s[i..i + 1] == [c] && s[i + 1..i + 1] == "";
    if v.haveName {
      PassOver(s, i, 1, v);
    }
    match c {
      case ' ' =>
        if v.inParen {
          return Ok(v.(paramStart := i + 1));
        }
        if v.haveName {
          return Ok(Cursor(v.tokens + [CutToken(s, i, v)], [],
                           i + 1, v.paramStart, false, false, false, false, None, false));
        }
        return Ok(v.(curStart := i + 1));
      case ',' =>
        if !v.inParen {
          return Err(CommaOutside(i));
        }
        return Ok(v.(params := v.params + [TrimSpace(s[v.paramStart..i])], paramStart := i + 1));
      case '(' =>
        if v.inParen || v.seenParen {
          return Err(NestedParen(i));
        }
        if v.haveName {
          return Ok(v.(inParen := true, seenParen := true, paramStart := i + 1,
                       nameEnd := if v.nameEnd.None? then Some(i) else v.nameEnd));
        }
        return Ok(v.(inParen := true, seenParen := true, paramStart := i + 1, haveName := true, curStart := i,
                     nameEnd := Some(i)));
      case ')' =>
        if !v.inParen {
          return Err(UnopenedParen(i));
        }
        return Ok(v.(inParen := false, params := v.params + [TrimSpace(s[v.paramStart..i])]));
      case _ =>
        return Ok(if v.haveName then v else v.(haveName := true, curStart := i));
    }
  }

  /** Handles one character that is not the first of a doubled quote. */
  method Advance(s: string, i: nat, v: Cursor) returns (r: Result<Cursor, SyntaxError>)
    requires i < |s| && InRange(s, i, v)
    ensures r.Ok? ==> InRange(s, i + 1, r.value) && Step(s[i], Seen(s, i, v)) == Ok(Seen(s, i + 1, r.value))
    ensures r.Err? ==> !v.inQuote && Step(s[i], Seen(s, i, v)) == Err(r.error)
  {
    hide InRange, Step, Seen;
    if s[i] == QUOTE || v.inQuote {
      r := AdvanceQuote(s, i, v);
    } else {
      r := AdvanceOutside(s, i, v);
    }
  }

  method SplitTag(tag: string) returns (r: Result<seq<RawToken>, SyntaxError>)
    ensures r == Split(tag)
  {
    var s := TrimSpace(tag);
    if s == "" {
      return Ok([]);
    }
    var v := Cursor([], [], 0, 0, false, false, false, false, None, false);
    var i := 0;
    assert s[0..] == s;
    while i < |s|
      invariant InRange(s, i, v)
      invariant Scan(s[i..], Seen(s, i, v)) == Split(tag)
    {
      if s[i] == QUOTE && v.inQuote && i + 1 < |s| && s[i + 1] == QUOTE {
        SkipEscape(s, i, v);
        i := i + 2;
      } else {
        var next := Advance(s, i, v);
        if next.Err? {
          Rejected(s, i, v, next.error);
          return Err(next.error);
        }
        NextPosition(s, i, v, next.value);
        v := next.value;
        i := i + 1;
      }
    }
    if v.inQuote {
      return Err(UnclosedQuote);
    }
    if v.inParen {
      return Err(UnclosedParen);
    }
    return Ok(if v.haveName then v.tokens + [CutToken(s, |s|, v)] else v.tokens);
  }
}
