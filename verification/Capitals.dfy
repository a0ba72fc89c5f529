/** Amounts of money in Chinese capital numerals, and reading them back. */
module Capitals {
  import opened Ascii
  import opened Machine
  import opened Sequences

  const TEN_TO_16: int := 10_000_000_000_000_000
  const TEN_TO_18: int := 1_000_000_000_000_000_000

  const NUMS: string := "零壹贰叁肆伍陆柒捌玖"
  const UNITS: seq<string> := ["", "拾", "佰", "仟"]
  const BIG_UNITS: seq<string> := ["", "万", "亿", "兆"]

  // ---- decimal notation ----------------------------------------------------------------------------

  function Decimal(n: nat): (s: string)
    ensures s != ""
  {
    (if n < 10 then "" else Decimal(n / 10)) + ['0' + (n % 10) as char]
  }

  function Digit(c: char): (d: nat)
    requires IsDigit(c)
    ensures d < 10
  {
    (c - '0') as nat
  }

  predicate AllDigits(s: string) {
    forall i :: 0 <= i < |s| ==> IsDigit(s[i])
  }

  function Pow10(k: nat): nat {
    if k == 0 then 1 else 10 * Pow10(k - 1)
  }

  /** The number a string of digits stands for. */
  function Value(s: string): nat
    requires AllDigits(s)
  {
    if s == "" then 0 else 10 * Value(s[..|s| - 1]) + Digit(s[|s| - 1])
  }

  lemma TimesTen(v: nat, p: nat)
    ensures v * (10 * p) == 10 * (v * p)
  {
  }

  lemma {:induction false} ValueConcat(a: string, b: string)
    requires AllDigits(a) && AllDigits(b)
    ensures AllDigits(a + b) && Value(a + b) == Value(a) * Pow10(|b|) + Value(b)
  {
    if b == "" {
      assert a + b == a;
    } else {
      var n := |b| - 1;
      assert Pow10(|b|) == 10 * Pow10(n);
      hide Value, Digit, Pow10;
      ValueConcat(a, b[..n]);
      assert (a + b)[..|a| + n] == a + b[..n];
      TimesTen(Value(a), Pow10(n));
      ValueSnoc(a + b);
      ValueSnoc(b);
    }
  }

  lemma ValueSnoc(s: string)
    requires AllDigits(s) && s != ""
    ensures Value(s) == 10 * Value(s[..|s| - 1]) + Digit(s[|s| - 1])
  {
  }

  lemma {:induction false} DecimalValue(n: nat)
    ensures AllDigits(Decimal(n)) && Value(Decimal(n)) == n
  {
    var s := Decimal(n);
    if n >= 10 {
      DecimalValue(n / 10);
      assert s[..|s| - 1] == Decimal(n / 10);
    } else {
      assert s[..0] == "";
    }
  }

  /** The notation has no leading zero, and k digits reach up to 10^k. */
  lemma {:induction false} DecimalLength(n: nat, k: nat)
    requires k > 0
    ensures n < Pow10(k) <==> |Decimal(n)| <= k
    ensures n > 0 ==> Decimal(n)[0] != '0'
  {
    PowGrows(k);
    if n >= 10 {
      DecimalLength(n / 10, if k > 1 then k - 1 else 1);
    }
  }

  lemma {:induction false} PowGrows(k: nat)
    requires k > 0
    ensures Pow10(k) >= 10
  {
    if k > 1 {
      PowGrows(k - 1);
    }
  }

  // ---- printing ------------------------------------------------------------------------------------

  /** A digit with the unit of its position. */
  function DigitText(d: nat, pos: nat): string
    requires d < 10 && pos < 4
  {
    [NUMS[d]] + UNITS[pos]
  }

  function ZeroText(zero: bool): string {
    if zero then [NUMS[0]] else ""
  }

  /** The text of the digits left of a chunk; zero says that a zero was passed since the last printed digit. */
  function ChunkText(chunk: string, zero: bool): string
    requires AllDigits(chunk) && |chunk| <= 4
  {
    if chunk == "" then ""
    else
      var d := Digit(chunk[0]);
      if d == 0 then ChunkText(chunk[1..], true)
      else ZeroText(zero) + DigitText(d, |chunk| - 1) + ChunkText(chunk[1..], false)
  }

  method ChunkToCN(chunk: string) returns (r: string)
    requires AllDigits(chunk) && |chunk| <= 4
    ensures r == ChunkText(chunk, false)
  {
    hide Digit, DigitText, ZeroText;
    r := "";
    var zero := false;
    Pieces("", "", "", ChunkText(chunk, false));
    assert chunk[0..] == chunk;
    for i := 0 to |chunk|
      invariant r + ChunkText(chunk[i..], zero) == ChunkText(chunk, false)
    {
      var d := Digit(chunk[i]);
      var pos := |chunk| - 1 - i;
      assert chunk[i..][1..] == chunk[i + 1..];
      if d == 0 {
        zero := true;
      } else {
        Pieces(r, ZeroText(zero), DigitText(d, pos), ChunkText(chunk[i + 1..], false));
        r := r + ZeroText(zero) + DigitText(d, pos);
        zero := false;
      }
    }
    Pieces(r, "", "", "");
  }

  lemma Pieces(a: string, b: string, c: string, d: string)
    ensures a + (b + c + d) == a + b + c + d
    ensures a + "" == a && "" + d == d
  {
  }

  /** Four digits at a time from the back; the first chunk may be shorter. */
  function Chunks(s: string): (parts: seq<string>)
    requires AllDigits(s) && s != ""
    ensures |parts| == (|s| + 3) / 4
    ensures forall i :: 0 <= i < |parts| ==> AllDigits(parts[i]) && 0 < |parts[i]| <= 4
  {
    if |s| <= 4 then [s] else Chunks(s[..|s| - 4]) + [s[|s| - 4..]]
  }

  ghost predicate AreChunks(parts: seq<string>) {
    forall i :: 0 <= i < |parts| ==> AllDigits(parts[i]) && |parts[i]| <= 4
  }

  /** A chunk with its big unit. */
  function PartText(part: string, k: nat): string
    requires AllDigits(part) && |part| <= 4 && k < 4
  {
    ChunkText(part, false) + BIG_UNITS[k]
  }

  /** The text of the chunks; none when a chunk would need a fifth big unit, which indexes out of range. */
  function PartsText(parts: seq<string>): Option<string>
    requires AreChunks(parts)
  {
    if parts == [] then Some("")
    else
      var rest := PartsText(parts[1..]);
      if Value(parts[0]) == 0 then rest
      else if |parts| > 4 || rest.None? then None
      else Some(PartText(parts[0], |parts| - 1) + rest.value)
  }

  /** None stands for the index out of range that stops the program. */
  function IntegerText(n: int): Option<string> {
    if n < 0 then None
    else if n == 0 then Some([NUMS[0]])
    else
      DecimalValue(n);
      PartsText(Chunks(Decimal(n)))
  }

  method CutChunks(text: string) returns (parts: seq<string>)
    requires AllDigits(text) && text != ""
    ensures parts == Chunks(text)
  {
    var s := text;
    parts := [];
    while |s| > 0
      invariant AllDigits(s) && (s == "" ==> parts == Chunks(text))
      invariant s != "" ==> Chunks(s) + parts == Chunks(text)
      decreases |s|
    {
      var chunk := s;
      if |s| > 4 {
        chunk := s[|s| - 4..];
        s := s[..|s| - 4];
        assert Chunks(s) + [chunk] + parts == Chunks(s) + ([chunk] + parts);
      } else {
        s := "";
      }
      parts := [chunk] + parts;
    }
  }

  method JoinParts(parts: seq<string>) returns (r: Option<string>)
    requires AreChunks(parts)
    ensures r == PartsText(parts)
  {
    hide Value, ChunkText;
    var sb := "";
    OnwardTwice("", "", PartsText(parts));
    assert parts[0..] == parts;
    for i := 0 to |parts|
      invariant Onward(sb, PartsText(parts[i..])) == PartsText(parts)
    {
      assert parts[i..][1..] == parts[i + 1..];
      if Value(parts[i]) != 0 {
        if |parts| - 1 - i >= |BIG_UNITS| {
          return None;
        }
        var text := ChunkToCN(parts[i]);
        OnwardTwice(sb, PartText(parts[i], |parts| - 1 - i), PartsText(parts[i + 1..]));
        sb := sb + (text + BIG_UNITS[|parts| - 1 - i]);
      }
    }
    Pieces(sb, "", "", "");
    return Some(sb);
  }

  method ConvertInteger(n: int) returns (r: Option<string>)
    ensures r == IntegerText(n)
  {
    hide Decimal, Chunks, PartsText;
    if n == 0 {
      return Some([NUMS[0]]);
    }
    if n < 0 {
      return None;
    }
    DecimalValue(n);
    var parts := CutChunks(Decimal(n));
    r := JoinParts(parts);
  }

  function Onward(a: string, r: Option<string>): Option<string> {
    if r.None? then None else Some(a + r.value)
  }

  lemma OnwardTwice(a: string, b: string, r: Option<string>)
    ensures Onward(a, Onward(b, r)) == Onward(a + b, r) && Onward("", r) == r
  {
    if r.Some? {
      assert a + (b + r.value) == a + b + r.value && "" + r.value == r.value;
    }
  }

  /** What stands behind the yuan. */
  function TailText(yuan: nat, jiao: nat, fen: nat): string
    requires jiao < 10 && fen < 10
  {
    if jiao == 0 && fen == 0 then "整"
    else
      (if jiao > 0 then [NUMS[jiao]] + "角" else if yuan > 0 then "零" else "") +
      (if fen > 0 then [NUMS[fen]] + "分" else "")
  }

  function CapitalText(fen: int): Option<string> {
    if fen == 0 then Some("零元整")
    else
      var abs := if fen < 0 then Wrap64(-fen) else fen;
      if abs < 0 then None
      else Onward(if fen < 0 then "负" else "",
                  Behind(IntegerText(abs / 100), "元" + TailText(abs / 100, abs / 10 % 10, abs % 10)))
  }

  function Behind(r: Option<string>, tail: string): Option<string> {
    if r.None? then None else Some(r.value + tail)
  }

  method UpperCNY(fen: int) returns (r: Option<string>)
    requires InInt64(fen)
    ensures r == CapitalText(fen)
  {
    hide IntegerText;
    if fen == 0 {
      return Some("零元整");
    }
    var neg := fen < 0;
    var abs := if neg then Wrap64(-fen) else fen;
    if abs < 0 {
      return None;
    }
    var yuan, jiao, f := abs / 100, abs / 10 % 10, abs % 10;
    var sb := "";
    if neg {
      sb := sb + "负";
    }
    var whole := ConvertInteger(yuan);
    if whole.None? {
      return None;
    }
    var tail := TailOf(yuan, jiao, f);
    assert sb == if fen < 0 then "负" else "";
    return Some(sb + (whole.value + ("元" + tail)));
  }

  method TailOf(yuan: nat, jiao: nat, f: nat) returns (tail: string)
    requires jiao < 10 && f < 10
    ensures tail == TailText(yuan, jiao, f)
  {
    tail := "";
    if jiao == 0 && f == 0 {
      tail := "整";
    } else {
      if jiao > 0 {
        tail := [NUMS[jiao]] + "角";
      } else if yuan > 0 {
        tail := "零";
      }
      Pieces(tail, "", "", "");
      if f > 0 {
        tail := tail + ([NUMS[f]] + "分");
      }
    }
  }
}
