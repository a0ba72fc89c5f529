/** Nothing is lost in splitting: the raw texts of the tokens, with the spaces between them, are the tag. */
module TagRebuild {
  import opened TagTokenizer
  import opened TagPrinter

  /** Texts laid out with the given number of spaces before each. */
  function Lay(texts: seq<string>, gaps: seq<nat>): string
    requires |texts| == |gaps|
  {
    if texts == [] then "" else Spaces(gaps[0]) + texts[0] + Lay(texts[1..], gaps[1..])
  }

  function RawTexts(ts: seq<RawToken>): seq<string> {
    seq(|ts|, i requires 0 <= i < |ts| => ts[i].raw)
  }

  /** At least one space before every text but the first. */
  ghost predicate Apart(gaps: seq<nat>) {
    forall i :: 1 <= i < |gaps| ==> gaps[i] >= 1
  }

  /** Text taken into the current token so far. */
  function Pending(st: Scanner): string {
    if st.haveName then st.raw else ""
  }

  predicate Sound(st: Scanner) {
    st.inQuote || st.inParen ==> st.haveName
  }

  lemma OneMoreSpace(texts: seq<string>, gaps: seq<nat>, n: nat)
    requires |texts| == |gaps|
    ensures texts != [] ==> [' '] + (Lay(texts, gaps) + Spaces(n)) == Lay(texts, [gaps[0] + 1] + gaps[1..]) + Spaces(n)
    ensures texts == [] ==> [' '] + (Lay(texts, gaps) + Spaces(n)) == Lay(texts, gaps) + Spaces(n + 1)
  {
    if texts == [] {
      assert [' '] + ("" + Spaces(n)) == "" + Spaces(n + 1);
    } else {
      assert Spaces(gaps[0] + 1) == [' '] + Spaces(gaps[0]);
      var rest := Lay(texts[1..], gaps[1..]);
      Assoc([' '], Spaces(gaps[0]), texts[0]);
      Assoc([' '], Spaces(gaps[0]) + texts[0], rest);
      Assoc([' '], Spaces(gaps[0]) + texts[0] + rest, Spaces(n));
      assert ([gaps[0] + 1] + gaps[1..])[1..] == gaps[1..];
    }
  }

  lemma TextFirst(text: string, texts: seq<string>, gaps: seq<nat>, end: string)
    requires |texts| == |gaps|
    ensures text + (Lay(texts, gaps) + end) == Lay([text] + texts, [0] + gaps) + end
  {
    assert ([text] + texts)[1..] == texts && ([0] + gaps)[1..] == gaps;
    assert Spaces(0) + text == text;
    Assoc(text, Lay(texts, gaps), end);
  }

  /** What is left of the tag, after the pending text, is the remaining tokens laid out. */
  lemma {:induction false} RebuildFrom(rest: string, st: Scanner) returns (more: seq<RawToken>, gaps: seq<nat>, n: nat)
    requires Scan(rest, st).Ok? && Sound(st)
    ensures Scan(rest, st).value == st.tokens + more && |gaps| == |more| && Apart(gaps)
    ensures Pending(st) + rest == Lay(RawTexts(more), gaps) + Spaces(n)
    ensures st.haveName ==> more != [] && gaps[0] == 0
    decreases |rest|
  {
    hide TrimSpace, Unquote, Lay, RawTexts;
    if rest == "" {
      n := 0;
      more, gaps := if st.haveName then [st.Flushed()] else [], if st.haveName then [0] else [];
      RebuildEnd(st);
    } else if rest[0] == QUOTE && st.inQuote && |rest| > 1 && rest[1] == QUOTE {
      more, gaps, n := RebuildFrom(rest[2..], st.Eat([QUOTE, QUOTE]));
      TakeFirst(Pending(st), rest, 2);
    } else if rest[0] == ' ' && !st.inQuote && !st.inParen {
      var more', gaps', n' := RebuildFrom(rest[1..], st.Flush().(at := st.at + 1));
      assert "" + rest[1..] == rest[1..];
      more, gaps, n := AfterSpace(rest[1..], st, more', gaps', n');
      assert rest == [' '] + rest[1..];
    } else {
      StepKeeps(rest[0], st);
      more, gaps, n := RebuildFrom(rest[1..], Step(rest[0], st).value);
      TakeFirst(Pending(st), rest, 1);
    }
  }

  lemma TakeFirst(pending: string, rest: string, n: nat)
    requires n <= |rest|
    ensures pending + rest == pending + rest[..n] + rest[n..]
    ensures n == 1 ==> rest[..1] == [rest[0]]
    ensures n == 2 ==> rest[..2] == [rest[0], rest[1]]
  {
  }

  lemma StepKeeps(c: char, st: Scanner)
    requires Step(c, st).Ok? && Sound(st) && !(c == ' ' && !st.inQuote && !st.inParen)
    ensures var st' := Step(c, st).value;
            st'.haveName && st'.tokens == st.tokens && Pending(st') == Pending(st) + [c] && Sound(st')
  {
  }

  lemma RebuildEnd(st: Scanner)
    ensures st.haveName ==> st.raw + "" == Lay(RawTexts([st.Flushed()]), [0]) + Spaces(0)
    ensures "" == Lay(RawTexts([]), []) + Spaces(0)
    ensures st.tokens + [] == st.tokens
  {
    if st.haveName {
      var texts := RawTexts([st.Flushed()]);
      assert texts[1..] == [] && [0][1..] == [];
      assert Spaces(0) + st.raw + "" == st.raw;
    }
  }

  lemma AfterSpace(rest: string, st: Scanner, more': seq<RawToken>, gaps': seq<nat>, n': nat)
    returns (more: seq<RawToken>, gaps: seq<nat>, n: nat)
    requires |gaps'| == |more'| && Apart(gaps') && rest == Lay(RawTexts(more'), gaps') + Spaces(n')
    ensures var before := st.tokens + if st.haveName then [st.Flushed()] else []; before + more' == st.tokens + more
    ensures |gaps| == |more| && Apart(gaps)
    ensures Pending(st) + ([' '] + rest) == Lay(RawTexts(more), gaps) + Spaces(n)
    ensures st.haveName ==> more != [] && gaps[0] == 0
  {
    var texts := RawTexts(more');
    var wider := if more' == [] then gaps' else [gaps'[0] + 1] + gaps'[1..];
    n := if more' == [] then n' + 1 else n';
    OneMoreSpace(texts, gaps', n');
    if st.haveName {
      more, gaps := [st.Flushed()] + more', [0] + wider;
      TextFirst(st.raw, texts, wider, Spaces(n));
      assert RawTexts(more) == [st.raw] + texts;
      assert st.tokens + [st.Flushed()] + more' == st.tokens + more;
    } else {
      more, gaps := more', wider;
      assert st.tokens + [] == st.tokens;
    }
  }

  /** On every accepted tag, the tokens' raw texts, separated only by spaces, rebuild the trimmed tag. */
  lemma SplitRebuilds(tag: string)
    requires Split(tag).Ok?
    ensures exists gaps: seq<nat> ::
              && |gaps| == |Split(tag).value|
              && (forall i :: 0 <= i < |gaps| ==> if i == 0 then gaps[0] == 0 else gaps[i] >= 1)
              && TrimSpace(tag) == Lay(RawTexts(Split(tag).value), gaps)
  {
    var s, st := TrimSpace(tag), Fresh([], 0);
    var more, gaps, n := RebuildFrom(s, st);
    assert Split(tag).value == more by { assert [] + more == more; }
    var texts := RawTexts(more);
    assert "" + s == s;
    if n > 0 {
      SpaceLast(Lay(texts, gaps), n);
      assert false;
    }
    assert Lay(texts, gaps) + Spaces(0) == Lay(texts, gaps);
    if more != [] && gaps[0] > 0 {
      LaySpaceFirst(texts, gaps);
      assert false;
    }
  }

  lemma SpaceLast(s: string, n: nat)
    requires n > 0
    ensures var t := s + Spaces(n); t != "" && t[|t| - 1] == ' '
  {
  }

  lemma LaySpaceFirst(texts: seq<string>, gaps: seq<nat>)
    requires |texts| == |gaps| && texts != [] && gaps[0] > 0
    ensures Lay(texts, gaps) != "" && Lay(texts, gaps)[0] == ' '
  {
  }
}
