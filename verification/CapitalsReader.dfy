/** A reader of capital numerals, and why it gets back what was printed. */
module CapitalsReader {
  import opened Machine
  import opened Sequences
  import opened Capitals

  /** What has been read: complete groups, the group being read, a digit without its unit, the sign. */
  datatype Reading = Reading(total: nat, section: nat, pending: nat, neg: bool)

  const NOTHING := Reading(0, 0, 0, false)

  function NumOf(c: char): Option<nat> {
    match c
    case '壹' => Some(1) case '贰' => Some(2) case '叁' => Some(3) case '肆' => Some(4) case '伍' => Some(5)
    case '陆' => Some(6) case '柒' => Some(7) case '捌' => Some(8) case '玖' => Some(9)
    case _ => None
  }

  function InGroup(r: Reading, unit: nat): Reading {
    r.(section := r.section + r.pending * unit, pending := 0)
  }

  function CloseGroup(r: Reading, unit: nat): Reading {
    r.(total := r.total + (r.section + r.pending) * unit, section := 0, pending := 0)
  }

  /** Digits wait for their unit; zeros are passed over. */
  function Take(r: Reading, c: char): Reading {
    match c
    case '拾' => InGroup(r, 10)
    case '佰' => InGroup(r, 100)
    case '仟' => InGroup(r, 1000)
    case '万' => CloseGroup(r, 1_0000)
    case '亿' => CloseGroup(r, 1_0000_0000)
    case '兆' => CloseGroup(r, 1_0000_0000_0000)
    case '元' => r.(total := 100 * (r.total + r.section + r.pending), section := 0, pending := 0)
    case '角' => r.(total := r.total + 10 * r.pending, pending := 0)
    case '分' => r.(total := r.total + r.pending, pending := 0)
    case '负' => r.(neg := true)
    case _ => if NumOf(c).Some? then r.(pending := NumOf(c).value) else r
  }

  function Run(r: Reading, s: string): Reading
    decreases |s|
  {
    if s == "" then r else Run(Take(r, s[0]), s[1..])
  }

  /** The amount in fen. */
  function Read(s: string): int {
    var r := Run(NOTHING, s);
    (if r.neg then -1 else 1) * r.total
  }

  lemma {:induction false} RunConcat(r: Reading, a: string, b: string)
    ensures Run(r, a + b) == Run(Run(r, a), b)
    decreases |a|
  {
    if a == "" {
      assert a + b == b;
    } else {
      hide Take;
      RunConcat(Take(r, a[0]), a[1..], b);
      assert (a + b)[1..] == a[1..] + b;
    }
  }

  lemma RunOne(r: Reading, c: char)
    ensures Run(r, [c]) == Take(r, c) && Run(r, "") == r
  {
    hide Take;
    assert [c][1..] == "";
  }

  lemma NumeralRead(r: Reading, d: nat)
    requires d < 10
    ensures Take(r, NUMS[d]) == if d == 0 then r else r.(pending := d)
  {
    match d {
      case 0 => case 1 => case 2 => case 3 => case 4 => case 5 => case 6 => case 7 => case 8 => case 9 =>
    }
  }

  lemma UnitRead(r: Reading, pos: nat)
    requires pos < 4
    ensures Run(r, UNITS[pos]) == if pos == 0 then r else InGroup(r, Pow10(pos))
  {
    hide Run, InGroup;
    assert Pow10(1) == 10 && Pow10(2) == 100 && Pow10(3) == 1000;
    match pos {
      case 0 => RunOne(r, '元');
      case 1 => RunOne(r, '拾');
      case 2 => RunOne(r, '佰');
      case 3 => RunOne(r, '仟');
    }
  }

  lemma BigUnitRead(r: Reading, k: nat)
    requires k < 4
    ensures Run(r, BIG_UNITS[k]) == if k == 0 then r else CloseGroup(r, Pow10(4 * k))
  {
    hide Run, CloseGroup;
    assert Pow10(4) == 1_0000;
    assert Pow10(8) == 1_0000_0000;
    assert Pow10(12) == 1_0000_0000_0000;
    match k {
      case 0 => RunOne(r, '元');
      case 1 => RunOne(r, '万');
      case 2 => RunOne(r, '亿');
      case 3 => RunOne(r, '兆');
    }
  }

  /** A digit's value at a position. */
  function Place(d: nat, pos: nat): nat {
    d * Pow10(pos)
  }

  lemma DigitRead(r: Reading, zero: bool, d: nat, pos: nat)
    requires 0 < d < 10 && pos < 4
    ensures Run(r, ZeroText(zero) + DigitText(d, pos)) ==
            if pos == 0 then r.(pending := d) else r.(section := r.section + Place(d, pos), pending := 0)
  {
    hide Run, Take, Pow10;
    RunConcat(r, ZeroText(zero), DigitText(d, pos));
    NumeralRead(r, 0);
    RunOne(r, NUMS[0]);
    RunConcat(r, [NUMS[d]], UNITS[pos]);
    RunOne(r, NUMS[d]);
    NumeralRead(r, d);
    UnitRead(r.(pending := d), pos);
  }

  lemma FirstDigit(s: string)
    requires AllDigits(s) && s != ""
    ensures Value(s) == Place(Digit(s[0]), |s| - 1) + Value(s[1..])
  {
    assert s == [s[0]] + s[1..];
    assert Value([s[0]]) == Digit(s[0]) by {
      assert [s[0]][..0] == "";
    }
    ValueConcat([s[0]], s[1..]);
  }

  lemma PowZero()
    ensures Pow10(0) == 1
  {
  }

  lemma OnesPlace(d: nat, pos: nat)
    ensures Place(d, 0) == d && Place(0, pos) == 0
  {
  }

  lemma NoValue()
    ensures Value("") == 0
  {
  }

  /** Reading the text of a chunk adds the chunk's value to the group. */
  lemma {:induction false} ChunkRead(r: Reading, chunk: string, zero: bool)
    requires AllDigits(chunk) && |chunk| <= 4 && r.pending == 0
    ensures var r' := Run(r, ChunkText(chunk, zero));
      r'.total == r.total && r'.neg == r.neg && r'.section + r'.pending == r.section + Value(chunk)
    decreases |chunk|
  {
    RunOne(r, '元');
    if chunk == "" {
      return;
    }
    FirstDigit(chunk);
    NoValue();
    OnesPlace(Digit(chunk[0]), |chunk| - 1);
    hide Run, Value, Digit, DigitText, ZeroText, Place;
    var d, pos := Digit(chunk[0]), |chunk| - 1;
    if d == 0 {
      ChunkRead(r, chunk[1..], true);
    } else {
      DigitRead(r, zero, d, pos);
      RunConcat(r, ZeroText(zero) + DigitText(d, pos), ChunkText(chunk[1..], false));
      if pos == 0 {
        assert chunk[1..] == "";
        RunOne(r.(pending := d), '元');
      } else {
        ChunkRead(r.(section := r.section + Place(d, pos), pending := 0), chunk[1..], false);
      }
    }
  }

  function PartsValue(parts: seq<string>): nat
    requires AreChunks(parts)
  {
    if parts == [] then 0 else Value(parts[0]) * Pow10(4 * (|parts| - 1)) + PartsValue(parts[1..])
  }

  lemma PartRead(r: Reading, part: string, k: nat)
    requires AllDigits(part) && |part| <= 4 && k < 4 && r.section == r.pending == 0
    ensures var r' := Run(r, PartText(part, k));
      && r'.neg == r.neg && (k > 0 ==> r'.section == r'.pending == 0)
      && r'.total + r'.section + r'.pending == r.total + Value(part) * Pow10(4 * k)
  {
    hide Run, Value, ChunkText, Pow10;
    RunConcat(r, ChunkText(part, false), BIG_UNITS[k]);
    ChunkRead(r, part, false);
    BigUnitRead(Run(r, ChunkText(part, false)), k);
    assert Pow10(0) == 1 by { PowZero(); }
  }

  /** Up to four chunks have a text, and reading it adds their value. */
  lemma {:induction false} PartsRead(r: Reading, parts: seq<string>)
    requires AreChunks(parts) && |parts| <= 4 && r.section == r.pending == 0
    ensures PartsText(parts).Some?
    ensures var r' := Run(r, PartsText(parts).value);
      r'.neg == r.neg && r'.total + r'.section + r'.pending == r.total + PartsValue(parts)
    decreases |parts|
  {
    if parts == [] {
      RunOne(r, '元');
    } else {
      hide Run, Value, PartText, Pow10;
      var k := |parts| - 1;
      if Value(parts[0]) == 0 {
        PartsRead(r, parts[1..]);
      } else {
        PartRead(r, parts[0], k);
        var r' := Run(r, PartText(parts[0], k));
        if k > 0 {
          PartsRead(r', parts[1..]);
          RunConcat(r, PartText(parts[0], k), PartsText(parts[1..]).value);
        } else {
          assert PartsText(parts[1..]) == Some("");
          RunConcat(r, PartText(parts[0], k), "");
          RunOne(r', '元');
        }
      }
    }
  }

  lemma {:induction false} PartsSnoc(parts: seq<string>, last: string)
    requires AreChunks(parts) && AllDigits(last) && |last| <= 4
    ensures AreChunks(parts + [last]) && PartsValue(parts + [last]) == PartsValue(parts) * 1_0000 + Value(last)
  {
    if parts == [] {
      assert [] + [last] == [last] && [last][1..] == [];
    } else {
      PartsSnoc(parts[1..], last);
      assert (parts + [last])[1..] == parts[1..] + [last];
      var n := |parts| - 1;
      PowFour(4 * n);
      FourMore(Value(parts[0]), Pow10(4 * n));
    }
  }

  lemma PowFour(k: nat)
    ensures Pow10(k + 4) == 1_0000 * Pow10(k)
  {
    assert Pow10(k + 2) == 100 * Pow10(k);
    assert Pow10(k + 4) == 100 * Pow10(k + 2);
  }

  lemma FourMore(v: nat, p: nat)
    ensures v * (1_0000 * p) == v * p * 1_0000
  {
  }

  lemma {:induction false} ChunksValue(s: string)
    requires AllDigits(s) && s != ""
    ensures PartsValue(Chunks(s)) == Value(s)
  {
    if |s| <= 4 {
      assert [s][1..] == [];
    } else {
      var front, back := s[..|s| - 4], s[|s| - 4..];
      ChunksValue(front);
      PartsSnoc(Chunks(front), back);
      ValueConcat(front, back);
      assert s == front + back;
      assert Pow10(4) == 1_0000;
    }
  }

  lemma {:induction false} FirstChunk(s: string)
    requires AllDigits(s) && s != "" && s[0] != '0'
    ensures Value(Chunks(s)[0]) > 0
  {
    if |s| <= 4 {
      FirstDigit(s);
      FactorsPositive(Digit(s[0]), |s| - 1);
    } else {
      FirstChunk(s[..|s| - 4]);
    }
  }

  lemma {:induction false} FactorsPositive(d: nat, k: nat)
    requires d > 0
    ensures d * Pow10(k) > 0
  {
    if k > 0 {
      FactorsPositive(d, k - 1);
      TimesTen(d, Pow10(k - 1));
    }
  }

  /** A whole number has a text exactly below 10^16, and reading the text adds the number. */
  lemma IntegerRead(r: Reading, n: nat)
    requires r.section == r.pending == 0
    ensures IntegerText(n).Some? <==> n < TEN_TO_16
    ensures n < TEN_TO_16 ==>
      var r' := Run(r, IntegerText(n).value); r'.neg == r.neg && r'.total + r'.section + r'.pending == r.total + n
  {
    if n == 0 {
      RunOne(r, NUMS[0]);
      NumeralRead(r, 0);
    } else {
      DecimalValue(n);
      DecimalLength(n, 16);
      SixteenDigits();
      ChunksValue(Decimal(n));
      FirstChunk(Decimal(n));
      hide Decimal, Run, Value, Pow10;
      if n < TEN_TO_16 {
        PartsRead(r, Chunks(Decimal(n)));
      }
    }
  }

  lemma SixteenDigits()
    ensures Pow10(16) == TEN_TO_16
  {
    assert Pow10(8) == 1_0000_0000;
  }

  lemma TailRead(r: Reading, yuan: nat, jiao: nat, fen: nat)
    requires jiao < 10 && fen < 10
    ensures var r' := Run(r, "元" + TailText(yuan, jiao, fen));
      r'.neg == r.neg && r'.total == 100 * (r.total + r.section + r.pending) + 10 * jiao + fen
  {
    RunConcat(r, "元", TailText(yuan, jiao, fen));
    RunOne(r, '元');
    var whole := Run(r, "元");
    if jiao == 0 && fen == 0 {
      RunOne(whole, '整');
    } else {
      var a := if jiao > 0 then [NUMS[jiao]] + "角" else if yuan > 0 then "零" else "";
      var b := if fen > 0 then [NUMS[fen]] + "分" else "";
      RunConcat(whole, a, b);
      JiaoRead(whole, yuan, jiao);
      FenRead(Run(whole, a), fen);
    }
  }

  lemma JiaoRead(r: Reading, yuan: nat, jiao: nat)
    requires jiao < 10 && r.section == r.pending == 0
    ensures Run(r, if jiao > 0 then [NUMS[jiao]] + "角" else if yuan > 0 then "零" else "") ==
            r.(total := r.total + 10 * jiao)
  {
    RunConcat(r, [NUMS[jiao]], "角");
    RunOne(r, NUMS[jiao]);
    NumeralRead(r, jiao);
    RunOne(r.(pending := jiao), '角');
    RunOne(r, '零');
  }

  lemma FenRead(r: Reading, fen: nat)
    requires fen < 10 && r.section == r.pending == 0
    ensures Run(r, if fen > 0 then [NUMS[fen]] + "分" else "") == r.(total := r.total + fen)
  {
    RunConcat(r, [NUMS[fen]], "分");
    RunOne(r, NUMS[fen]);
    NumeralRead(r, fen);
    RunOne(r.(pending := fen), '分');
    RunOne(r, '零');
  }

  lemma Places(abs: nat)
    ensures 100 * (abs / 100) + 10 * (abs / 10 % 10) + abs % 10 == abs
    ensures abs / 100 < TEN_TO_16 <==> abs < TEN_TO_18
  {
    assert abs / 100 == abs / 10 / 10;
  }

  /** Reading what is printed for an amount of fen that is not negative, behind its sign. */
  lemma AmountRead(r: Reading, abs: nat)
    requires r.section == r.pending == 0
    ensures IntegerText(abs / 100).Some? <==> abs < TEN_TO_18
    ensures abs < TEN_TO_18 ==>
      var r' := Run(r, IntegerText(abs / 100).value + ("元" + TailText(abs / 100, abs / 10 % 10, abs % 10)));
      r'.neg == r.neg && r'.total == 100 * r.total + abs
  {
    Places(abs);
    var yuan, jiao, fen := abs / 100, abs / 10 % 10, abs % 10;
    hide Run, TailText, IntegerText;
    IntegerRead(r, yuan);
    if abs < TEN_TO_18 {
      var whole := IntegerText(yuan).value;
      RunConcat(r, whole, "元" + TailText(yuan, jiao, fen));
      TailRead(Run(r, whole), yuan, jiao, fen);
    }
  }

  lemma SignRead(neg: bool)
    ensures Run(NOTHING, if neg then "负" else "") == Reading(0, 0, 0, neg)
  {
    RunOne(NOTHING, '负');
  }

  /**
   * An amount is printed, without an index out of range, exactly when it is below 10^18 fen; and
   * what is printed can be read back.
   */
  lemma ReadUndoesPrint(fen: int)
    requires InInt64(fen)
    ensures CapitalText(fen).Some? <==> -TEN_TO_18 < fen < TEN_TO_18
    ensures CapitalText(fen).Some? ==> Read(CapitalText(fen).value) == fen
  {
    if fen == 0 {
      ZeroRead();
    } else if fen != MIN_INT64 {
      var abs := if fen < 0 then -fen else fen;
      AmountRead(Reading(0, 0, 0, fen < 0), abs);
      if abs < TEN_TO_18 {
        hide Run, TailText, IntegerText;
        SignRead(fen < 0);
        RunConcat(NOTHING, if fen < 0 then "负" else "",
                  IntegerText(abs / 100).value + ("元" + TailText(abs / 100, abs / 10 % 10, abs % 10)));
      }
    }
  }

  lemma ZeroRead()
    ensures Read("零元整") == 0
  {
    RunConcat(NOTHING, "零", "元整");
    RunConcat(NOTHING, "元", "整");
    RunOne(NOTHING, '零');
    RunOne(NOTHING, '元');
    RunOne(NOTHING, '整');
  }

  /** Ten quadrillion yuan index the big units out of range, in either sign. */
  lemma TooLarge()
    ensures CapitalText(TEN_TO_18) == None && CapitalText(-TEN_TO_18) == None
  {
    ReadUndoesPrint(TEN_TO_18);
    ReadUndoesPrint(-TEN_TO_18);
  }

  // ---- zeros and endings, which the reader passes over -----------------------------------------------

  /** A digit of a chunk: nothing for a zero; else a zero sign if a zero is before it, the numeral and its unit. */
  function Cell(chunk: string, i: nat): string
    requires AllDigits(chunk) && i < |chunk| <= 4
  {
    if chunk[i] == '0' then ""
    else (if i > 0 && chunk[i - 1] == '0' then "零" else "") + [NUMS[(chunk[i] - '0') as int]] + UNITS[|chunk| - 1 - i]
  }

  function Cells(chunk: string, i: nat): string
    requires AllDigits(chunk) && i <= |chunk| <= 4
    decreases |chunk| - i
  {
    if i == |chunk| then "" else Cell(chunk, i) + Cells(chunk, i + 1)
  }

  predicate ZeroBefore(chunk: string, i: nat)
    requires i <= |chunk|
  {
    i > 0 && chunk[i - 1] == '0'
  }

  lemma CellIsText(chunk: string, i: nat)
    requires AllDigits(chunk) && i < |chunk| <= 4
    ensures var d := Digit(chunk[i]);
      && (d == 0 <==> chunk[i] == '0')
      && Cell(chunk, i) == if d == 0 then "" else ZeroText(ZeroBefore(chunk, i)) + DigitText(d, |chunk| - 1 - i)
  {
  }

  lemma {:induction false} ChunkCellsFrom(chunk: string, i: nat)
    requires AllDigits(chunk) && i <= |chunk| <= 4
    ensures ChunkText(chunk[i..], ZeroBefore(chunk, i)) == Cells(chunk, i)
    decreases |chunk| - i
  {
    if i < |chunk| {
      CellIsText(chunk, i);
      hide Cell, Digit, DigitText, ZeroText;
      ChunkCellsFrom(chunk, i + 1);
      assert chunk[i..][1..] == chunk[i + 1..] && chunk[i..][0] == chunk[i];
    }
  }

  /** A chunk's text is its digits' cells: one zero sign for any run of zeros with a digit behind it, none at the end. */
  lemma ChunkCells(chunk: string)
    requires AllDigits(chunk) && |chunk| <= 4
    ensures ChunkText(chunk, false) == Cells(chunk, 0)
  {
    ChunkCellsFrom(chunk, 0);
    assert chunk[0..] == chunk;
  }

  /**
   * Behind the yuan stands the sign for a whole amount exactly if there is no jiao and no fen; a zero sign
   * exactly if fen follow yuan without jiao.
   */
  lemma TailShape(yuan: nat, jiao: nat, fen: nat)
    requires jiao < 10 && fen < 10
    ensures '整' in TailText(yuan, jiao, fen) <==> jiao == 0 && fen == 0
    ensures '零' in TailText(yuan, jiao, fen) <==> yuan > 0 && jiao == 0 && fen > 0
    ensures jiao == 0 && fen == 0 ==> TailText(yuan, jiao, fen) == "整"
    ensures jiao > 0 && fen == 0 ==> TailText(yuan, jiao, fen) == [NUMS[jiao], '角']
    ensures jiao > 0 && fen > 0 ==> TailText(yuan, jiao, fen) == [NUMS[jiao], '角', NUMS[fen], '分']
    ensures jiao == 0 && fen > 0 ==>
              TailText(yuan, jiao, fen) == (if yuan > 0 then "零" else "") + [NUMS[fen], '分']
  {
    assert NUMS[jiao] == '零' <==> jiao == 0;
    assert NUMS[fen] == '零' <==> fen == 0;
    assert NUMS[jiao] != '整' && NUMS[fen] != '整';
  }

  /** An amount below one yuan has the zero sign for its yuan; nothing at all is a whole zero. */
  lemma BelowOneYuan(fen: int)
    requires 0 <= fen < 100
    ensures CapitalText(fen) == Some("零元" + TailText(0, fen / 10, fen % 10))
  {
    assert IntegerText(0) == Some("零");
    assert "" + ("零" + ("元" + TailText(0, fen / 10, fen % 10))) == "零元" + TailText(0, fen / 10, fen % 10);
    if fen == 0 {
      assert TailText(0, 0, 0) == "整";
      assert "零元" + "整" == "零元整";
    }
  }
}
