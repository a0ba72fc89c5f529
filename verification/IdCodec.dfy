/** The text of an ID: 50 bits of milliseconds and 30 bits of sequence, five bits to a character. */
module IdCodec {
  import opened Ascii
  import opened Sequences

  datatype IdError = BadLength(length: nat) | BadSymbol(at: nat, symbol: char)

  const SIZE := 16
  const CHARSET: string := "0123456789abcdefghjkmnpqrstvwxyz"
  const LIMIT_MS: nat := 0x4_0000_0000_0000
  const LIMIT_SEQ: nat := 0x4000_0000

  /** The symbol of a digit: the letters leave out i, l, o and u. */
  function Symbol(d: nat): char
    requires d < 32
  {
    if d < 10 then '0' + d as char
    else if d < 18 then 'a' + (d - 10) as char
    else if d < 20 then 'j' + (d - 18) as char
    else if d < 22 then 'm' + (d - 20) as char
    else if d < 27 then 'p' + (d - 22) as char
    else 'v' + (d - 27) as char
  }

  lemma SymbolIsCharset(d: nat)
    requires d < 32
    ensures CHARSET[d] == Symbol(d)
  {
  }

  /** The table charToVal: a symbol's digit. */
  function ValueOf(c: char): (d: Option<nat>)
    ensures d.Some? ==> d.value < 32 && Symbol(d.value) == c
    ensures d.None? ==> forall k: nat | k < 32 :: Symbol(k) != c
  {
    if '0' <= c <= '9' then Some((c - '0') as nat)
    else if 'a' <= c <= 'h' then Some((c - 'a') as nat + 10)
    else if 'j' <= c <= 'k' then Some((c - 'j') as nat + 18)
    else if 'm' <= c <= 'n' then Some((c - 'm') as nat + 20)
    else if 'p' <= c <= 't' then Some((c - 'p') as nat + 22)
    else if 'v' <= c <= 'z' then Some((c - 'v') as nat + 27)
    else None
  }

  function Pow32(n: nat): nat {
    if n == 0 then 1 else 32 * Pow32(n - 1)
  }

  /** The last n digits of x, most significant first. */
  function Digits(x: nat, n: nat): (s: string)
    ensures |s| == n
  {
    if n == 0 then "" else Digits(x / 32, n - 1) + [Symbol(x % 32)]
  }

  /** The ID of a time below 2^50 and a sequence number below 2^30. */
  function Encode(ts: nat, r: nat): (s: string)
    ensures |s| == SIZE
  {
    Digits(ts, 10) + Digits(r, 6)
  }

  /** Fills positions lo up to hi, from the back. */
  method FillDigits(b: array<char>, lo: nat, hi: nat, x: nat)
    requires lo <= hi <= b.Length
    modifies b
    ensures b[lo..hi] == Digits(x, hi - lo)
    ensures b[..lo] == old(b[..lo]) && b[hi..] == old(b[hi..])
  {
    var rest := x;
    var i := hi;
    assert Digits(rest, i - lo) + b[i..hi] == Digits(x, hi - lo);
    while i > lo
      invariant lo <= i <= hi
      invariant Digits(rest, i - lo) + b[i..hi] == Digits(x, hi - lo)
      invariant b[..lo] == old(b[..lo]) && b[hi..] == old(b[hi..])
    {
      ghost var tail := b[i..hi];
      i := i - 1;
      b[i] := CHARSET[rest % 32];
      SymbolIsCharset(rest % 32);
      assert b[i..hi] == [b[i]] + tail;
      rest := rest / 32;
    }
  }

  method EncodeBytes(ts: nat, r: nat) returns (id: string)
    ensures id == Encode(ts, r)
  {
    var b := new char[SIZE];
    FillDigits(b, 0, 10, ts);
    assert b[..10] == b[0..10];
    FillDigits(b, 10, SIZE, r);
    id := b[..];
    assert id[..10] == b[..10] && id[10..] == b[10..SIZE];
  }

  // ---- order ---------------------------------------------------------------------------------------

  /** The order of strings, byte by byte. */
  predicate Less(a: string, b: string) {
    b != "" && (a == "" || a[0] < b[0] || (a[0] == b[0] && Less(a[1..], b[1..])))
  }

  lemma {:induction false} LessBehind(a: string, b: string, c: string, d: string)
    requires |a| == |b|
    ensures Less(a + c, b + d) <==> Less(a, b) || (a == b && Less(c, d))
  {
    if a == "" {
      assert a + c == c && b + d == d;
    } else {
      LessBehind(a[1..], b[1..], c, d);
      assert (a + c)[1..] == a[1..] + c && (b + d)[1..] == b[1..] + d;
      assert a == [a[0]] + a[1..] && b == [b[0]] + b[1..];
    }
  }

  lemma LastDigit(p: string, q: string, c: nat, d: nat)
    requires |p| == |q| && c < 32 && d < 32
    ensures Less(p + [Symbol(c)], q + [Symbol(d)]) <==> Less(p, q) || (p == q && c < d)
    ensures p + [Symbol(c)] == q + [Symbol(d)] <==> p == q && c == d
  {
    var e, f := [Symbol(c)], [Symbol(d)];
    LessBehind(p, q, e, f);
    assert Less(e, f) <==> c < d by {
      assert e[1..] == "" && f[1..] == "";
    }
    assert (p + e)[..|p|] == p && (q + f)[..|q|] == q;
    assert (p + e)[|p|] == e[0] && (q + f)[|q|] == f[0];
  }

  /** Digits of equal number are ordered, and equal, as what they stand for. */
  lemma {:induction false} DigitsOrder(x: nat, y: nat, n: nat)
    requires x < Pow32(n) && y < Pow32(n)
    ensures Less(Digits(x, n), Digits(y, n)) <==> x < y
    ensures Digits(x, n) == Digits(y, n) <==> x == y
  {
    if n > 0 {
      DigitsOrder(x / 32, y / 32, n - 1);
      LastDigit(Digits(x / 32, n - 1), Digits(y / 32, n - 1), x % 32, y % 32);
    }
  }

  lemma Widths()
    ensures Pow32(10) == LIMIT_MS && Pow32(6) == LIMIT_SEQ
  {
    assert Pow32(5) == 0x200_0000;
  }

  /** IDs are ordered as time first, sequence second; so different pairs have different IDs. */
  lemma EncodeOrder(ts: nat, r: nat, ts': nat, r': nat)
    requires ts < LIMIT_MS && ts' < LIMIT_MS && r < LIMIT_SEQ && r' < LIMIT_SEQ
    ensures Less(Encode(ts, r), Encode(ts', r')) <==> ts < ts' || (ts == ts' && r < r')
  {
    Widths();
    DigitsOrder(ts, ts', 10);
    DigitsOrder(r, r', 6);
    LessBehind(Digits(ts, 10), Digits(ts', 10), Digits(r, 6), Digits(r', 6));
  }

  // ---- reading an ID back --------------------------------------------------------------------------

  /** The lower-case form of characters: an ASCII letter's is known, others' are what Unicode says. */
  ghost predicate IsFold(lower: char -> char) {
    forall c :: c < '\U{0080}' ==> lower(c) == ToLower(c)
  }

  /** A symbol as it is read; a hyphen is not read at all. */
  function Read(c: char, lower: char -> char): string {
    if c == '-' then ""
    else if c in "IiLl" then "1"
    else if c in "Oo" then "0"
    else [lower(c)]
  }

  function Normalize(v: string, lower: char -> char): string {
    if v == "" then "" else Read(v[0], lower) + Normalize(v[1..], lower)
  }

  /** The bytes of a character in UTF-8, section 3 of RFC 3629. */
  function Bytes(c: char): (b: string)
    ensures 1 <= |b| <= 4 && forall i :: 0 <= i < |b| ==> b[i] < '\U{0100}'
    ensures if c < '\U{0080}' then b == [c] else forall i :: 0 <= i < |b| ==> b[i] >= '\U{0080}'
  {
    var n := c as int;
    if n < 0x80 then [c]
    else if n < 0x800 then [(0xC0 + n / 0x40) as char, (0x80 + n % 0x40) as char]
    else if n < 0x1_0000 then
      [(0xE0 + n / 0x1000) as char, (0x80 + n / 0x40 % 0x40) as char, (0x80 + n % 0x40) as char]
    else
      [(0xF0 + n / 0x4_0000) as char, (0x80 + n / 0x1000 % 0x40) as char, (0x80 + n / 0x40 % 0x40) as char,
       (0x80 + n % 0x40) as char]
  }

  /** The bits of the bytes, behind the mark of the first and of each later one, are the character's. */
  lemma BytesDecode(c: char)
    ensures var n, b := c as int, Bytes(c);
      && (n < 0x80 <==> |b| == 1) && (0x80 <= n < 0x800 <==> |b| == 2)
      && (0x800 <= n < 0x1_0000 <==> |b| == 3) && (0x1_0000 <= n <==> |b| == 4)
      && (forall i :: 1 <= i < |b| ==> 0x80 <= b[i] as int < 0xC0)
      && (|b| == 2 ==> 0xC0 <= b[0] as int < 0xE0 && n == (b[0] as int - 0xC0) * 0x40 + (b[1] as int - 0x80))
      && (|b| == 3 ==>
            && 0xE0 <= b[0] as int < 0xF0
            && n == ((b[0] as int - 0xE0) * 0x40 + (b[1] as int - 0x80)) * 0x40 + (b[2] as int - 0x80))
      && (|b| == 4 ==>
            && 0xF0 <= b[0] as int < 0xF8
            && n == (((b[0] as int - 0xF0) * 0x40 + (b[1] as int - 0x80)) * 0x40 + (b[2] as int - 0x80)) * 0x40
                    + (b[3] as int - 0x80))
  {
    var n := c as int;
    assert n / 0x1000 == n / 0x40 / 0x40 && n / 0x4_0000 == n / 0x1000 / 0x40;
  }

  /** The text as it is measured and indexed: byte by byte. */
  function Encoded(s: string): string {
    if s == "" then "" else Bytes(s[0]) + Encoded(s[1..])
  }

  lemma {:induction false} EncodedAscii(s: string)
    ensures Encoded(s) == s <==> forall k :: 0 <= k < |s| ==> s[k] < '\U{0080}'
    ensures |Encoded(s)| >= |s|
  {
    if s != "" {
      EncodedAscii(s[1..]);
      assert s == [s[0]] + s[1..];
      if Encoded(s) == s {
        assert Encoded(s)[0] == Bytes(s[0])[0];
        assert Encoded(s)[1..] == Encoded(s[1..]);
      }
    }
  }

  /** The number the first k symbols stand for, or the first position that holds none. */
  function Number(s: string, k: nat): Result<nat, IdError>
    requires k <= |s|
  {
    if k == 0 then Ok(0)
    else
      var before := Number(s, k - 1);
      if before.Err? then before
      else if ValueOf(s[k - 1]).None? then Err(BadSymbol(k - 1, s[k - 1]))
      else Ok(32 * before.value + ValueOf(s[k - 1]).value)
  }

  function Parsed(v: string, lower: char -> char): Result<nat, IdError> {
    var s := Encoded(Normalize(v, lower));
    if |s| != SIZE then Err(BadLength(|s|)) else Number(s, 10)
  }

  lemma {:induction false} NumberStops(s: string, k: nat, n: nat)
    requires k <= n <= |s| && Number(s, k).Err?
    ensures Number(s, n) == Number(s, k)
  {
    if k < n {
      NumberStops(s, k, n - 1);
    }
  }

  lemma {:induction false} NumberFits(s: string, k: nat)
    requires k <= |s| && Number(s, k).Ok?
    ensures Number(s, k).value < Pow32(k)
  {
    if k > 0 {
      NumberFits(s, k - 1);
    }
  }

  /** Parses the milliseconds; only the first ten symbols are looked at. */
  method Parse(v: string, lower: char -> char) returns (r: Result<nat, IdError>)
    ensures r == Parsed(v, lower)
    ensures r.Ok? ==> r.value < LIMIT_MS
  {
    hide Normalize, Encoded, ValueOf;
    var s := Encoded(Normalize(v, lower));
    if |s| != SIZE {
      return Err(BadLength(|s|));
    }
    var ts := 0;
    for i := 0 to 10
      invariant Number(s, i) == Ok(ts)
    {
      var idx := ValueOf(s[i]);
      if idx.None? {
        NumberStops(s, i + 1, 10);
        return Err(BadSymbol(i, s[i]));
      }
      ts := 32 * ts + idx.value;
    }
    NumberFits(s, 10);
    Widths();
    return Ok(ts);
  }

  lemma {:induction false} NumberOfDigits(x: nat, n: nat, tail: string)
    requires x < Pow32(n)
    ensures Number(Digits(x, n) + tail, n) == Ok(x)
  {
    if n > 0 {
      var last := [Symbol(x % 32)];
      NumberOfDigits(x / 32, n - 1, last + tail);
      assert Digits(x, n) + tail == Digits(x / 32, n - 1) + (last + tail);
      assert ValueOf(Symbol(x % 32)) == Some(x % 32);
    }
  }

  /** A symbol in one of the ways it may be written; the last is for letters that Unicode folds to ASCII ones. */
  predicate Written(c: char, d: char, lower: char -> char) {
    || c == d || (d == '1' && c in "IiLl") || (d == '0' && c in "Oo") || ('a' <= d <= 'z' && c == d - 'a' + 'A')
    || (c >= '\U{0080}' && lower(c) == d)
  }

  /** v is id with hyphens put in, letters in either case and confusable symbols mixed up. */
  predicate Decorates(v: string, id: string, lower: char -> char) {
    if v == "" then id == ""
    else if v[0] == '-' then Decorates(v[1..], id, lower)
    else id != "" && Written(v[0], id[0], lower) && Decorates(v[1..], id[1..], lower)
  }

  predicate AllSymbols(s: string) {
    forall k :: 0 <= k < |s| ==> ValueOf(s[k]).Some?
  }

  lemma WrittenIff(c: char, d: char, lower: char -> char)
    requires IsFold(lower) && c != '-' && ValueOf(d).Some?
    ensures Written(c, d, lower) <==> Read(c, lower) == [d]
  {
  }

  /** Normalizing undoes every decoration, and nothing else. */
  lemma {:induction false} NormalizeIff(v: string, id: string, lower: char -> char)
    requires IsFold(lower) && AllSymbols(id)
    ensures Normalize(v, lower) == id <==> Decorates(v, id, lower)
  {
    if v != "" {
      if v[0] == '-' {
        NormalizeIff(v[1..], id, lower);
        assert Normalize(v, lower) == Normalize(v[1..], lower);
      } else if id != "" {
        hide Written, ValueOf, IsFold;
        WrittenIff(v[0], id[0], lower);
        NormalizeIff(v[1..], id[1..], lower);
        assert id == [id[0]] + id[1..];
        assert Normalize(v, lower)[0] == Read(v[0], lower)[0];
        assert Normalize(v, lower)[1..] == Normalize(v[1..], lower);
      }
    }
  }

  lemma {:induction false} DigitsAreSymbols(x: nat, n: nat)
    ensures AllSymbols(Digits(x, n))
  {
    if n > 0 {
      DigitsAreSymbols(x / 32, n - 1);
    }
  }

  lemma SymbolsAreAscii(s: string)
    requires AllSymbols(s)
    ensures Encoded(s) == s
  {
    forall k | 0 <= k < |s| ensures s[k] < '\U{0080}' {
      assert ValueOf(s[k]).Some?;
    }
    EncodedAscii(s);
  }

  /** An ID, however decorated, gives its time back. */
  lemma ParseUndoesEncode(v: string, ts: nat, r: nat, lower: char -> char)
    requires IsFold(lower) && ts < LIMIT_MS && Decorates(v, Encode(ts, r), lower)
    ensures Parsed(v, lower) == Ok(ts)
  {
    DigitsAreSymbols(ts, 10);
    DigitsAreSymbols(r, 6);
    NormalizeIff(v, Encode(ts, r), lower);
    SymbolsAreAscii(Encode(ts, r));
    Widths();
    NumberOfDigits(ts, 10, Digits(r, 6));
  }

  /** What parses: 16 bytes after normalizing, of which the first ten are symbols. */
  lemma ParsedIff(v: string, lower: char -> char)
    ensures var s := Encoded(Normalize(v, lower));
      Parsed(v, lower).Ok? <==> |s| == SIZE && AllSymbols(s[..10])
  {
    var s := Encoded(Normalize(v, lower));
    if |s| == SIZE {
      NumberIff(s, 10);
    }
  }

  lemma {:induction false} NumberIff(s: string, k: nat)
    requires k <= |s|
    ensures Number(s, k).Ok? <==> AllSymbols(s[..k])
  {
    if k > 0 {
      NumberIff(s, k - 1);
      assert s[..k] == s[..k - 1] + [s[k - 1]];
      assert s[..k][k - 1] == s[k - 1];
    }
  }
}
