/** Key tuples of rows, and the strings the preloader regroups rows by. */
module JoinKeys {
  import opened SeparatedText

  /** A column value as it sits in a Go field. */
  datatype Value = Null | IntV(n: int) | StrV(s: string)

  /** The values of one row by column name. */
  type Cols = map<string, Value>

  const SEPARATOR: char := '\U{001F}'

  predicate IsZero(v: Value) {
    v == Null || v == IntV(0) || v == StrV("")
  }

  function Digits(n: nat): (s: string)
    ensures |s| > 0 && (n < 10 <==> |s| == 1)
    ensures forall c :: c in s ==> '0' <= c <= '9'
  {
    if n < 10 then ['0' + (n as char)]
    else Digits(n / 10) + ['0' + ((n % 10) as char)]
  }

  /** What fmt.Sprint prints for a value. */
  function Render(v: Value): string {
    match v
    case Null => "<nil>"
    case IntV(n) => if n < 0 then "-" + Digits(-n) else Digits(n)
    case StrV(s) => s
  }

  /** Rendered components joined by U+001F. */
  function JoinKey(vals: seq<Value>): string {
    if vals == [] then ""
    else if |vals| == 1 then Render(vals[0])
    else Render(vals[0]) + [SEPARATOR] + JoinKey(vals[1..])
  }

  /** A row's values under the key columns; a column that cannot be located counts as nil. */
  function KeyTuple(row: Cols, cols: seq<string>): (t: seq<Value>)
    ensures |t| == |cols|
  {
    seq(|cols|, i requires 0 <= i < |cols| => if cols[i] in row then row[cols[i]] else Null)
  }

  /** Every key column is present and non-zero. */
  predicate Keyed(row: Cols, cols: seq<string>) {
    forall c :: c in cols ==> c in row && !IsZero(row[c])
  }

  /** Two values whose column types let their renderings be compared. */
  predicate Comparable(a: Value, b: Value) {
    match (a, b)
    case (IntV(_), StrV(_)) => false
    case (StrV(_), IntV(_)) => false
    case (Null, StrV(s)) => s != "<nil>"
    case (StrV(s), Null) => s != "<nil>"
    case _ => true
  }

  predicate AllComparable(a: seq<Value>, b: seq<Value>) {
    |a| == |b| && forall i :: 0 <= i < |a| ==> Comparable(a[i], b[i])
  }

  /** No component's text contains the separator. */
  predicate SeparatorFree(t: seq<Value>) {
    forall i :: 0 <= i < |t| ==> SEPARATOR !in Render(t[i])
  }

  /** A text between its separators. */
  function Parts(s: string): (p: seq<string>)
    ensures p != []
  {
    Split(s, SEPARATOR)
  }

  /** The parts of all components, in order. */
  function KeyParts(t: seq<Value>): seq<string> {
    if t == [] then [] else Parts(Render(t[0])) + KeyParts(t[1..])
  }

  /** What a number column can be printed as. */
  ghost predicate NumberText(s: string) {
    s == "<nil>" || exists n :: s == Render(IntV(n))
  }

  /**
   * Two text components with only numbers between them can be cut elsewhere: the first keeps c parts,
   * and as many parts as there are numbers, from there on, are numbers too.
   */
  ghost predicate RecutAt(t: seq<Value>, i: nat, j: nat, c: nat) {
    && i < j < |t| && t[i].StrV? && t[j].StrV? && (forall k :: i < k < j ==> !t[k].StrV?)
    && var w, numbers := KeyParts(t[i..j + 1]), j - i - 1;
    && 1 <= c < |w| - numbers && c != |Parts(t[i].s)|
    && forall k :: c <= k < c + numbers ==> NumberText(w[k])
  }

  ghost predicate Recuttable(t: seq<Value>) {
    exists i, j, c :: RecutAt(t, i, j, c)
  }

  /** A key that shares its joined key with no other. */
  ghost predicate Firm(t: seq<Value>) {
    SeparatorFree(t) || (Null !in t && !Recuttable(t))
  }

  /** Two key tuples of the same columns that are equal, or one of which shares its joined key with no other. */
  ghost predicate TuplesComparable(a: seq<Value>, b: seq<Value>) {
    AllComparable(a, b) && (a == b || |a| <= 1 || Firm(a) || Firm(b))
  }

  lemma {:induction false} DigitsInjective(m: nat, n: nat)
    requires Digits(m) == Digits(n)
    ensures m == n
  {
    var a, b := Digits(m), Digits(n);
    assert a[|a| - 1] == b[|b| - 1];
    assert m % 10 == n % 10;
    if m >= 10 && n >= 10 {
      assert a[..|a| - 1] == Digits(m / 10) && b[..|b| - 1] == Digits(n / 10);
      DigitsInjective(m / 10, n / 10);
    }
  }

  lemma RenderIntHead(n: int)
    ensures Render(IntV(n)) != "<nil>"
  {
    var d := Digits(if n < 0 then -n else n);
    assert d[0] in d;
    assert Render(IntV(n))[0] == (if n < 0 then '-' else d[0]);
  }

  lemma RenderFaithful(a: Value, b: Value)
    requires Comparable(a, b)
    ensures Render(a) == Render(b) <==> a == b
  {
    if a.IntV? && b.IntV? && Render(a) == Render(b) {
      assert '-' !in Digits(if a.n < 0 then -a.n else a.n);
      assert '-' !in Digits(if b.n < 0 then -b.n else b.n);
      assert a.n < 0 <==> Render(a)[0] == '-';
      assert b.n < 0 <==> Render(b)[0] == '-';
      if a.n < 0 {
        assert Render(a)[1..] == Digits(-a.n) && Render(b)[1..] == Digits(-b.n);
        DigitsInjective(-a.n, -b.n);
      } else {
        DigitsInjective(a.n, b.n);
      }
    } else if a.IntV? && b.Null? {
      RenderIntHead(a.n);
    } else if a.Null? && b.IntV? {
      RenderIntHead(b.n);
    }
  }

  // ---- the parts between separators ----------------------------------------------------------------

  lemma {:induction false} JoinKeyParts(t: seq<Value>)
    requires t != []
    ensures Parts(JoinKey(t)) == KeyParts(t)
  {
    if |t| > 1 {
      JoinKeyParts(t[1..]);
      SplitAround(Render(t[0]), JoinKey(t[1..]), SEPARATOR);
    } else {
      assert KeyParts(t[1..]) == [];
    }
  }

  /** Joined keys are equal exactly when the texts between their separators are. */
  lemma SameKeySameParts(a: seq<Value>, b: seq<Value>)
    requires |a| == |b|
    ensures JoinKey(a) == JoinKey(b) <==> KeyParts(a) == KeyParts(b)
  {
    if a != [] {
      JoinKeyParts(a);
      JoinKeyParts(b);
      JoinSplit(JoinKey(a), SEPARATOR);
      JoinSplit(JoinKey(b), SEPARATOR);
    } else {
      assert b == [];
    }
  }

  lemma FirstParts(t: seq<Value>)
    requires t != []
    ensures KeyParts(t) == Parts(Render(t[0])) + KeyParts(t[1..])
  {
  }

  lemma OneComponent(v: Value)
    ensures KeyParts([v]) == Parts(Render(v))
  {
    assert KeyParts([v]) == Parts(Render(v)) + KeyParts([]);
  }

  lemma {:induction false} KeyPartsConcat(a: seq<Value>, b: seq<Value>)
    ensures KeyParts(a + b) == KeyParts(a) + KeyParts(b)
  {
    if a == [] {
      assert a + b == b && KeyParts(a) == [];
    } else {
      hide KeyParts, Parts, Render;
      FirstOfBoth(a, b);
      FirstParts(a);
      FirstParts(a + b);
      KeyPartsConcat(a[1..], b);
      Associate(Parts(Render(a[0])), KeyParts(a[1..]), KeyParts(b));
    }
  }

  lemma FirstOfBoth<T>(a: seq<T>, b: seq<T>)
    requires a != []
    ensures a + b != [] && (a + b)[0] == a[0] && (a + b)[1..] == a[1..] + b
  {
  }

  lemma KeyPartsThree(a: seq<Value>, b: seq<Value>, c: seq<Value>)
    ensures KeyParts(a + b + c) == KeyParts(a) + KeyParts(b) + KeyParts(c)
  {
    hide KeyParts;
    KeyPartsConcat(a + b, c);
    KeyPartsConcat(a, b);
  }

  lemma {:induction false} KeyPartsFree(t: seq<Value>)
    ensures forall p :: p in KeyParts(t) ==> SEPARATOR !in p
    ensures |KeyParts(t)| >= |t|
    ensures |KeyParts(t)| == |t| <==> SeparatorFree(t)
  {
    if t != [] {
      SplitFree(Render(t[0]), SEPARATOR);
      KeyPartsFree(t[1..]);
      assert t == [t[0]] + t[1..];
    }
  }

  lemma PlainNumber(v: Value)
    requires !v.StrV?
    ensures SEPARATOR !in Render(v) && Parts(Render(v)) == [Render(v)] && NumberText(Render(v))
  {
    WholePart(v);
  }

  lemma {:induction false} NumberParts(t: seq<Value>)
    requires forall i :: 0 <= i < |t| ==> !t[i].StrV?
    ensures |KeyParts(t)| == |t| && forall p :: p in KeyParts(t) ==> NumberText(p)
  {
    if t != [] {
      PlainNumber(t[0]);
      NumberParts(t[1..]);
    }
  }

  lemma WholePart(v: Value)
    requires SEPARATOR !in Render(v)
    ensures Parts(Render(v)) == [Render(v)]
  {
    SplitFree(Render(v), SEPARATOR);
  }

  lemma {:induction false} SeparatorFreeParts(a: seq<Value>, b: seq<Value>)
    requires AllComparable(a, b) && SeparatorFree(a) && SeparatorFree(b) && KeyParts(a) == KeyParts(b)
    ensures a == b
  {
    hide Parts, Render;
    if a != [] {
      WholePart(a[0]);
      WholePart(b[0]);
      SameHead([Render(a[0])], KeyParts(a[1..]), [Render(b[0])], KeyParts(b[1..]));
      RenderFaithful(a[0], b[0]);
      SeparatorFreeParts(a[1..], b[1..]);
      assert a == [a[0]] + a[1..] && b == [b[0]] + b[1..];
    }
  }

  lemma SameHead<T>(head: seq<T>, rest: seq<T>, head': seq<T>, rest': seq<T>)
    requires head + rest == head' + rest' && |head| == |head'|
    ensures head == head' && rest == rest'
  {
    assert head == (head + rest)[..|head|] && rest == (head + rest)[|head|..];
    assert head' == (head' + rest')[..|head'|] && rest' == (head' + rest')[|head'|..];
  }

  /** Where one list begins with a longer head, its rest is the other's from later on. */
  lemma LongerHead<T>(head: seq<T>, rest: seq<T>, head': seq<T>, rest': seq<T>)
    requires head + rest == head' + rest' && |head| <= |head'|
    ensures |head'| - |head| <= |rest| && rest' == rest[|head'| - |head|..]
  {
    var s := head + rest;
    assert rest' == s[|head'|..] && rest == s[|head|..];
  }

  lemma Shifted<T>(s: seq<T>, mid: seq<T>, last: seq<T>, rest: seq<T>, e: nat,
                   mid': seq<T>, last': seq<T>, rest': seq<T>)
    requires s == mid + (last + rest) && |mid| == |mid'| && |last| <= e <= |s| && s[e..] == mid' + (last' + rest')
    ensures e + |last'| - |last| <= |rest| && rest' == rest[e + |last'| - |last|..]
  {
    assert s == (mid + last) + rest;
    assert s == (s[..e] + mid' + last') + rest';
    LongerHead(mid + last, rest, s[..e] + mid' + last', rest');
  }

  // ---- a key that shares its joined key can be recut -----------------------------------------------

  lemma RecutLater(t: seq<Value>, n: nat)
    requires n <= |t| && Recuttable(t[n..])
    ensures Recuttable(t)
  {
    hide KeyParts;
    var i: nat, j: nat, c: nat :| RecutAt(t[n..], i, j, c);
    assert t[n..][i..j + 1] == t[n + i..n + j + 1];
    forall k | n + i < k < n + j ensures !t[k].StrV? {
      assert !t[n..][k - n].StrV?;
    }
    assert RecutAt(t, n + i, n + j, c);
  }

  /** The first text column. */
  function FirstText(t: seq<Value>): (n: nat)
    ensures n <= |t| && (n < |t| ==> t[n].StrV?)
    ensures forall k :: 0 <= k < n ==> !t[k].StrV?
  {
    if t == [] || t[0].StrV? then 0 else 1 + FirstText(t[1..])
  }

  /** A key from its first component on: the component, the numbers behind it, the next text and the rest. */
  lemma Stretch(t: seq<Value>, n: nat)
    requires 0 < n < |t| && forall k :: 0 < k < n ==> !t[k].StrV?
    ensures var head, mid := Parts(Render(t[0])), KeyParts(t[1..n]);
      var last, rest := Parts(Render(t[n])), KeyParts(t[n + 1..]);
      && |mid| == n - 1 && (forall p :: p in mid ==> NumberText(p))
      && KeyParts(t[1..]) == mid + (last + rest) && KeyParts(t) == head + KeyParts(t[1..])
      && KeyParts(t[n..]) == last + rest && KeyParts(t[n..][1..]) == rest
      && KeyParts(t[..n + 1]) == head + (mid + last)
  {
    hide KeyParts, Parts, Render, NumberText;
    NumberParts(t[1..n]);
    assert t[n..][1..] == t[n + 1..];
    FirstParts(t);
    FirstParts(t[n..]);
    assert t[1..] == t[1..n] + t[n..];
    KeyPartsConcat(t[1..n], t[n..]);
    assert t[..n + 1] == [t[0]] + t[1..n] + [t[n]];
    KeyPartsThree([t[0]], t[1..n], [t[n]]);
    OneComponent(t[0]);
    OneComponent(t[n]);
    Associate(KeyParts([t[0]]), KeyParts(t[1..n]), KeyParts([t[n]]));
  }

  lemma Associate<T>(a: seq<T>, b: seq<T>, c: seq<T>)
    ensures a + b + c == a + (b + c)
  {
  }

  lemma OnlyNumbersBehind(a: seq<Value>, b: seq<Value>)
    requires a != [] && AllComparable(a, b) && Null !in a && FirstText(a[1..]) == |a| - 1
    ensures |KeyParts(a[1..])| == |KeyParts(b[1..])|
  {
    forall i | 0 <= i < |a| - 1 ensures !b[1..][i].StrV? {
      assert !a[1..][i].StrV? && a[1..][i] in a && Comparable(a[i + 1], b[i + 1]);
    }
    NumberParts(a[1..]);
    NumberParts(b[1..]);
  }

  lemma NumbersAlike(a: seq<Value>, b: seq<Value>, n: nat)
    requires AllComparable(a, b) && Null !in a && 0 < n < |a| && FirstText(a[1..]) == n - 1
    ensures |a| == |b| && a[n].StrV? && forall k :: 0 < k < n ==> !a[k].StrV? && !b[k].StrV?
  {
    assert a[1..][n - 1] == a[n];
    forall k | 0 < k < n ensures !a[k].StrV? && !b[k].StrV? {
      assert !a[1..][k - 1].StrV? && a[k] in a && Comparable(a[k], b[k]);
    }
  }

  lemma LaterComparable(a: seq<Value>, b: seq<Value>, n: nat)
    requires n < |a| && AllComparable(a, b) && Null !in a
    ensures a[n..] != [] && a[n..][0] == a[n] && AllComparable(a[n..], b[n..]) && Null !in a[n..]
  {
    hide Comparable;
    forall i | 0 <= i < |a| - n ensures Comparable(a[n..][i], b[n..][i]) {
      assert a[n..][i] == a[n + i] && b[n..][i] == b[n + i];
    }
  }

  /** b's first text ends e parts later than a's. */
  lemma {:induction false} Late(a: seq<Value>, b: seq<Value>, e: nat)
    requires a != [] && AllComparable(a, b) && Null !in a && a[0].StrV?
    requires 1 <= e <= |KeyParts(a[1..])| && KeyParts(b[1..]) == KeyParts(a[1..])[e..]
    ensures Recuttable(a)
    decreases |a|
  {
    hide KeyParts, Parts, Recuttable, NumberText, AllComparable;
    var n := 1 + FirstText(a[1..]);
    if n == |a| {
      OnlyNumbersBehind(a, b);
    } else {
      NumbersAlike(a, b, n);
      Stretch(a, n);
      Stretch(b, n);
      LaterComparable(a, b, n);
      var head, last, last' := |Parts(a[0].s)|, |Parts(Render(a[n]))|, |Parts(Render(b[n]))|;
      if e < last {
        assert KeyParts(a)[head + e..] == KeyParts(b[1..]);
        assert KeyParts(a)[head + e..][..n - 1] == KeyParts(b[1..n]);
        CutThere(a, n, head + e, KeyParts(b[1..n]));
      } else {
        Shifted(KeyParts(a[1..]), KeyParts(a[1..n]), Parts(a[n].s), KeyParts(a[n + 1..]), e,
                KeyParts(b[1..n]), Parts(Render(b[n])), KeyParts(b[n + 1..]));
        Late(a[n..], b[n..], e + last' - last);
        RecutLater(a, n);
      }
    }
  }

  /** The numbers of another tuple stand in the key after c parts. */
  lemma CutThere(a: seq<Value>, n: nat, c: nat, numbers: seq<string>)
    requires 0 < n < |a| && a[0].StrV? && a[n].StrV? && forall k :: 0 < k < n ==> !a[k].StrV?
    requires |numbers| == n - 1 && forall p :: p in numbers ==> NumberText(p)
    requires 1 <= c < |Parts(a[0].s)| + |Parts(a[n].s)| && c != |Parts(a[0].s)|
    requires c + n - 1 <= |KeyParts(a)| && KeyParts(a)[c..c + n - 1] == numbers
    ensures Recuttable(a)
  {
    hide KeyParts, Parts, NumberText;
    Stretch(a, n);
    var w, rest := KeyParts(a[..n + 1]), KeyParts(a[n + 1..]);
    Associate(Parts(a[0].s), KeyParts(a[1..n]) + Parts(a[n].s), rest);
    Associate(KeyParts(a[1..n]), Parts(a[n].s), rest);
    Prefix(w, rest, c, numbers);
    assert a[0..n + 1] == a[..n + 1];
    assert RecutAt(a, 0, n, c);
  }

  lemma Prefix<T>(w: seq<T>, rest: seq<T>, c: nat, mid: seq<T>)
    requires c + |mid| <= |w| && (w + rest)[c..c + |mid|] == mid
    ensures forall k :: c <= k < c + |mid| ==> w[k] in mid
  {
    forall k | c <= k < c + |mid| ensures w[k] in mid {
      assert w[k] == (w + rest)[c..c + |mid|][k - c];
    }
  }

  /** b's first text ends earlier than a's. */
  lemma Early(a: seq<Value>, b: seq<Value>)
    requires a != [] && AllComparable(a, b) && Null !in a && a[0].StrV? && KeyParts(a) == KeyParts(b)
    requires |Parts(Render(b[0]))| < |Parts(Render(a[0]))|
    ensures Recuttable(a)
  {
    hide KeyParts, Parts, Recuttable, NumberText;
    var n := 1 + FirstText(a[1..]);
    if n == |a| {
      OnlyNumbersBehind(a, b);
      FirstParts(a);
      FirstParts(b);
    } else {
      NumbersAlike(a, b, n);
      Stretch(b, n);
      CutThere(a, n, |Parts(Render(b[0]))|, KeyParts(b[1..n]));
    }
  }

  lemma FirstDiffers(a: seq<Value>, b: seq<Value>)
    requires a != [] && AllComparable(a, b) && Null !in a && a[0] != b[0] && KeyParts(a) == KeyParts(b)
    ensures Recuttable(a)
  {
    var head, head' := Parts(Render(a[0])), Parts(Render(b[0]));
    hide KeyParts, Parts, Render;
    FirstParts(a);
    FirstParts(b);
    if |head| == |head'| {
      SameHead(head, KeyParts(a[1..]), head', KeyParts(b[1..]));
      JoinSplit(Render(a[0]), SEPARATOR);
      JoinSplit(Render(b[0]), SEPARATOR);
      RenderFaithful(a[0], b[0]);
    } else {
      assert a[0].StrV? by {
        assert a[0] in a;
        if !a[0].StrV? {
          PlainNumber(a[0]);
          PlainNumber(b[0]);
        }
      }
      if |head| < |head'| {
        LongerHead(head, KeyParts(a[1..]), head', KeyParts(b[1..]));
        Late(a, b, |head'| - |head|);
      } else {
        Early(a, b);
      }
    }
  }

  lemma {:induction false} CollidingIsRecuttable(a: seq<Value>, b: seq<Value>)
    requires AllComparable(a, b) && Null !in a && a != b && KeyParts(a) == KeyParts(b)
    ensures Recuttable(a)
  {
    if a[0] == b[0] {
      var head := Parts(Render(a[0]));
      assert KeyParts(a[1..]) == KeyParts(a)[|head|..] && KeyParts(b[1..]) == KeyParts(b)[|head|..];
      assert a == [a[0]] + a[1..] && b == [b[0]] + b[1..];
      CollidingIsRecuttable(a[1..], b[1..]);
      RecutLater(a, 1);
    } else {
      FirstDiffers(a, b);
    }
  }

  lemma AlikeComparable(a: seq<Value>, b: seq<Value>)
    requires AllComparable(a, b)
    ensures |a| == |b| && AllComparable(b, a)
  {
    forall i | 0 <= i < |a| ensures Comparable(b[i], a[i]) {
      assert Comparable(a[i], b[i]);
    }
  }

  /** Grouping by the joined string is grouping by the tuple. */
  lemma JoinKeyFaithful(a: seq<Value>, b: seq<Value>)
    requires TuplesComparable(a, b)
    ensures JoinKey(a) == JoinKey(b) <==> a == b
  {
    if a != b && JoinKey(a) == JoinKey(b) {
      if |a| == 1 {
        RenderFaithful(a[0], b[0]);
      } else {
        hide JoinKey, KeyParts, Render, SeparatorFree, Recuttable, AllComparable;
        AlikeComparable(a, b);
        SameKeySameParts(a, b);
        KeyPartsFree(a);
        KeyPartsFree(b);
        if SeparatorFree(a) || SeparatorFree(b) {
          SeparatorFreeParts(a, b);
        } else if Null !in a && !Recuttable(a) {
          CollidingIsRecuttable(a, b);
        } else {
          CollidingIsRecuttable(b, a);
        }
      }
    }
  }

  // ---- a key that can be recut shares its joined key -----------------------------------------------

  lemma NumberOf(s: string) returns (v: Value)
    requires NumberText(s)
    ensures !v.StrV? && Render(v) == s
  {
    if s == "<nil>" {
      v := Null;
    } else {
      var n: int :| s == Render(IntV(n));
      v := IntV(n);
    }
  }

  lemma {:induction false} Numbers(texts: seq<string>) returns (t: seq<Value>)
    requires forall p :: p in texts ==> NumberText(p)
    ensures |t| == |texts| && KeyParts(t) == texts && forall i :: 0 <= i < |t| ==> !t[i].StrV?
  {
    if texts == [] {
      t := [];
    } else {
      var v := NumberOf(texts[0]);
      PlainNumber(v);
      var rest := Numbers(texts[1..]);
      t := [v] + rest;
      assert t[1..] == rest && texts == [texts[0]] + texts[1..];
    }
  }

  /** Two texts and numbers between them with the given parts. */
  lemma Cut(w: seq<string>, numbers: nat, c: nat) returns (t: seq<Value>)
    requires 1 <= c < |w| - numbers && forall p :: p in w ==> SEPARATOR !in p
    requires forall k :: c <= k < c + numbers ==> NumberText(w[k])
    ensures |t| == numbers + 2 && KeyParts(t) == w && t[0].StrV? && t[numbers + 1].StrV?
    ensures |Parts(t[0].s)| == c && forall k :: 0 < k <= numbers ==> !t[k].StrV?
  {
    hide KeyParts, Parts, Render, NumberText;
    var d := c + numbers;
    var mid := Numbers(w[c..d]);
    var first := JoinedText(w[..c]);
    var last := JoinedText(w[d..]);
    t := [first] + mid + [last];
    KeyPartsThree([first], mid, [last]);
    assert w == w[..c] + w[c..d] + w[d..];
  }

  lemma JoinedText(p: seq<string>) returns (v: Value)
    requires p != [] && forall x :: x in p ==> SEPARATOR !in x
    ensures v.StrV? && Parts(v.s) == p && KeyParts([v]) == p
  {
    v := StrV(Join(p, SEPARATOR));
    SplitJoin(p, SEPARATOR);
    OneComponent(v);
  }

  /** A key that can be recut has the same joined key as another of the same columns. */
  lemma Recut(a: seq<Value>) returns (b: seq<Value>)
    requires Null !in a && Recuttable(a)
    ensures AllComparable(a, b) && b != a && JoinKey(b) == JoinKey(a)
  {
    hide JoinKey, KeyParts, Parts, NumberText, Render;
    var i: nat, j: nat, c: nat :| RecutAt(a, i, j, c);
    var mid := a[i..j + 1];
    KeyPartsFree(mid);
    var mid' := Cut(KeyParts(mid), j - i - 1, c);
    b := a[..i] + mid' + a[j + 1..];
    assert a == a[..i] + mid + a[j + 1..];
    KeyPartsThree(a[..i], mid, a[j + 1..]);
    KeyPartsThree(a[..i], mid', a[j + 1..]);
    assert b[i] == mid'[0];
    RecutComparable(a, i, j, mid', b);
    SameKeySameParts(a, b);
  }

  lemma RecutComparable(a: seq<Value>, i: nat, j: nat, mid: seq<Value>, b: seq<Value>)
    requires i < j < |a| && Null !in a && |mid| == j - i + 1 && b == a[..i] + mid + a[j + 1..]
    requires a[i].StrV? && a[j].StrV? && forall k :: i < k < j ==> !a[k].StrV?
    requires mid[0].StrV? && mid[j - i].StrV? && forall k :: 0 < k < j - i ==> !mid[k].StrV?
    ensures AllComparable(a, b)
  {
    forall k | 0 <= k < |a| ensures Comparable(a[k], b[k]) {
      assert a[k] in a;
      if i <= k <= j {
        assert b[k] == mid[k - i];
      } else {
        assert b[k] == a[k];
      }
    }
  }

  /** A key without nil shares its joined key with no other of the same columns exactly when it cannot be recut. */
  lemma NoCollisionIff(a: seq<Value>)
    requires Null !in a
    ensures (forall b :: AllComparable(a, b) && JoinKey(b) == JoinKey(a) ==> b == a) <==> !Recuttable(a)
  {
    if Recuttable(a) {
      var b := Recut(a);
    } else {
      forall b | AllComparable(a, b) && JoinKey(b) == JoinKey(a) ensures b == a {
        if b != a {
          SameKeySameParts(a, b);
          CollidingIsRecuttable(a, b);
        }
      }
    }
  }

  predicate Texts(t: seq<Value>) {
    forall i :: 0 <= i < |t| ==> t[i].StrV?
  }

  /** What can be recut: never a key with one text column at most; a text key exactly if it has the separator. */
  lemma RecuttableCases(t: seq<Value>)
    ensures (forall i, j :: 0 <= i < j < |t| ==> !t[i].StrV? || !t[j].StrV?) ==> !Recuttable(t)
    ensures Null !in t && SeparatorFree(t) ==> !Recuttable(t)
    ensures Texts(t) && |t| >= 2 ==> (Recuttable(t) <==> !SeparatorFree(t))
  {
    if SeparatorFree(t) {
      forall i: nat, j: nat, c: nat | i < j < |t| && t[i].StrV? ensures !RecutAt(t, i, j, c) {
        KeyPartsFree(t[i..j + 1]);
        SplitFree(Render(t[i]), SEPARATOR);
      }
    }
    if Texts(t) && |t| >= 2 && !SeparatorFree(t) {
      var k :| 0 <= k < |t| && SEPARATOR in Render(t[k]);
      var i := if k > 0 then k - 1 else 0;
      var w := t[i..i + 2];
      assert !SeparatorFree(w) by {
        assert w[k - i] == t[k];
      }
      KeyPartsFree(w);
      var c := if |Parts(t[i].s)| == 1 then 2 else 1;
      assert RecutAt(t, i, i + 1, c);
    }
  }

  /** Without the separator hypothesis two different composite keys can share a string. */
  lemma SeparatorCollision()
    ensures var a, b := [StrV("x" + [SEPARATOR] + "y"), StrV("z")], [StrV("x"), StrV("y" + [SEPARATOR] + "z")];
            a != b && JoinKey(a) == JoinKey(b)
  {
    var a, b := [StrV("x" + [SEPARATOR] + "y"), StrV("z")], [StrV("x"), StrV("y" + [SEPARATOR] + "z")];
    assert a[1..] == [StrV("z")] && b[1..] == [StrV("y" + [SEPARATOR] + "z")];
    assert JoinKey(a) == "x" + [SEPARATOR] + "y" + [SEPARATOR] + "z";
    assert JoinKey(b) == "x" + [SEPARATOR] + ("y" + [SEPARATOR] + "z");
    assert a[0] != b[0];
  }
}
