/** How a relation field becomes a relation between columns: direction, defaults and conventions. */
module RelationResolver {
  import opened Ascii
  import opened JoinKeys
  import opened PreloadEngine
  import opened PreloadSpec
  import opened Sequences

  // ---- names ---------------------------------------------------------------------------------------

  /** A new word starts at i: after a lower-case letter or digit, or before one at the end of an acronym. */
  predicate WordStart(s: string, i: nat)
    requires i < |s|
  {
    && i > 0 && IsUpper(s[i])
    && (IsLower(s[i - 1]) || IsDigit(s[i - 1]) || (i + 1 < |s| && IsLower(s[i + 1]) && IsUpper(s[i - 1])))
  }

  /** The snake form of the first n characters. */
  function SnakeUpTo(s: string, n: nat): string
    requires n <= |s|
  {
    if n == 0 then ""
    else SnakeUpTo(s, n - 1) + (if WordStart(s, n - 1) then "_" else "") + [ToLower(s[n - 1])]
  }

  function Snake(s: string): string {
    SnakeUpTo(s, |s|)
  }

  method ToSnake(s: string) returns (r: string)
    ensures r == Snake(s)
  {
    r := "";
    for i := 0 to |s|
      invariant r == SnakeUpTo(s, i)
    {
      var c := s[i];
      ghost var was := r;
      if IsUpper(c) {
        var prevLowerOrDigit := i > 0 && (IsLower(s[i - 1]) || IsDigit(s[i - 1]));
        var nextLower := i + 1 < |s| && IsLower(s[i + 1]);
        if i > 0 && (prevLowerOrDigit || (nextLower && IsUpper(s[i - 1]))) {
          r := r + "_";
        }
      }
      assert r == was + if WordStart(s, i) then "_" else "";
      r := r + [ToLower(c)];
    }
  }

  predicate NoUpper(s: string) {
    forall i :: 0 <= i < |s| ==> !IsUpper(s[i])
  }

  lemma {:induction false} SnakeNoUpper(s: string, n: nat)
    requires n <= |s|
    ensures NoUpper(SnakeUpTo(s, n))
  {
    if n > 0 {
      SnakeNoUpper(s, n - 1);
    }
  }

  lemma {:induction false} SnakeKeeps(s: string, n: nat)
    requires n <= |s| && NoUpper(s)
    ensures SnakeUpTo(s, n) == s[..n]
  {
    if n > 0 {
      SnakeKeeps(s, n - 1);
      assert SnakeUpTo(s, n - 1) + "" == SnakeUpTo(s, n - 1);
    }
  }

  /** A name that is already in snake form stays as it is; so converting twice is converting once. */
  lemma SnakeIdempotent(s: string)
    ensures Snake(s) == s <==> NoUpper(s)
    ensures Snake(Snake(s)) == Snake(s)
  {
    SnakeNoUpper(s, |s|);
    SnakeKeeps(Snake(s), |Snake(s)|);
    assert Snake(s)[..|Snake(s)|] == Snake(s);
    if NoUpper(s) {
      SnakeKeeps(s, |s|);
      assert s[..|s|] == s;
    }
  }

  function Letters(s: string): string {
    if s == "" then "" else Letters(s[..|s| - 1]) + if s[|s| - 1] == '_' then "" else [ToLower(s[|s| - 1])]
  }

  lemma LettersSnoc(s: string, c: char)
    ensures Letters(s + [c]) == Letters(s) + if c == '_' then "" else [ToLower(c)]
  {
    assert (s + [c])[..|s|] == s;
  }

  lemma LettersWord(before: string, start: bool, c: char)
    ensures Letters(before + (if start then "_" else "") + [ToLower(c)]) ==
            Letters(before) + if c == '_' then "" else [ToLower(c)]
  {
    hide Letters;
    LettersSnoc(before, '_');
    LettersSnoc(before + (if start then "_" else ""), ToLower(c));
    assert before + "" == before && Letters(before) + "" == Letters(before);
  }

  /** Only case and underscores change. */
  lemma {:induction false} SnakeKeepsLetters(s: string, n: nat)
    requires n <= |s|
    ensures Letters(SnakeUpTo(s, n)) == Letters(s[..n])
  {
    if n == 0 {
      return;
    }
    hide Letters, ToLower, WordStart;
    SnakeKeepsLetters(s, n - 1);
    LettersWord(SnakeUpTo(s, n - 1), WordStart(s, n - 1), s[n - 1]);
    LettersSnoc(s[..n - 1], s[n - 1]);
    assert s[..n] == s[..n - 1] + [s[n - 1]];
  }

  /** An underscore stands before a capital behind a small letter or digit, and before the last capital of an acronym. */
  predicate Boundary(a: string, b: string)
    requires a != "" && b != ""
  {
    var before := a[|a| - 1];
    && 'A' <= b[0] <= 'Z'
    && (|| 'a' <= before <= 'z' || '0' <= before <= '9'
        || ('A' <= before <= 'Z' && |b| > 1 && 'a' <= b[1] <= 'z'))
  }

  /** The name is not cut between a capital and the small letter behind it. */
  predicate CleanCut(a: string, b: string)
    requires a != "" && b != ""
  {
    !('A' <= a[|a| - 1] <= 'Z' && 'a' <= b[0] <= 'z')
  }

  lemma {:induction false} SnakeFront(a: string, b: string, n: nat)
    requires a != "" && b != "" && CleanCut(a, b) && n <= |a|
    ensures SnakeUpTo(a + b, n) == SnakeUpTo(a, n)
  {
    if n > 0 {
      SnakeFront(a, b, n - 1);
      assert (a + b)[n - 1] == a[n - 1];
      assert WordStart(a + b, n - 1) == WordStart(a, n - 1);
    }
  }

  lemma {:induction false} SnakeBack(a: string, b: string, n: nat)
    requires a != "" && b != "" && CleanCut(a, b) && 0 < n <= |b|
    ensures SnakeUpTo(a + b, |a| + n) == Snake(a) + (if Boundary(a, b) then "_" else "") + SnakeUpTo(b, n)
  {
    var s := a + b;
    assert s[|a| + n - 1] == b[n - 1];
    if n == 1 {
      SnakeFront(a, b, |a|);
      assert WordStart(s, |a|) == Boundary(a, b);
      assert SnakeUpTo(b, 1) == [ToLower(b[0])];
    } else {
      hide Boundary, Snake;
      SnakeBack(a, b, n - 1);
      assert WordStart(s, |a| + n - 1) == WordStart(b, n - 1);
    }
  }

  /** A name cut in two is the two snake forms, with an underscore between them exactly at a boundary. */
  lemma SnakeCut(a: string, b: string)
    requires a != "" && b != "" && CleanCut(a, b)
    ensures Snake(a + b) == Snake(a) + (if Boundary(a, b) then "_" else "") + Snake(b)
  {
    SnakeBack(a, b, |b|);
  }

  /** A word, with at most its first letter a capital, only loses the capital. */
  lemma SnakeWord(w: string)
    requires w != "" && NoUpper(w[1..])
    ensures Snake(w) == [ToLower(w[0])] + w[1..]
  {
    SnakeWordUpTo(w, |w|);
  }

  lemma {:induction false} SnakeWordUpTo(w: string, n: nat)
    requires 0 < n <= |w| && NoUpper(w[1..])
    ensures SnakeUpTo(w, n) == [ToLower(w[0])] + w[1..n]
  {
    if n > 1 {
      SnakeWordUpTo(w, n - 1);
      assert w[n - 1] == w[1..][n - 2];
      assert !IsUpper(w[n - 1]);
      assert w[1..n] == w[1..n - 1] + [w[n - 1]];
    } else {
      assert SnakeUpTo(w, 0) == "" && w[1..1] == "";
    }
  }

  lemma KnownNames()
    ensures Snake("UserID") == "user_id" && Snake("DeptID") == "dept_id" && Snake("HTTPServer") == "http_server"
  {
    SnakeCut("User", "ID");
    SnakeCut("Dept", "ID");
    SnakeCut("HTTP", "Server");
    SnakeWord("User");
    SnakeWord("Dept");
    SnakeWord("Server");
    SnakeCapitals();
    assert "UserID" == "User" + "ID" && "DeptID" == "Dept" + "ID" && "HTTPServer" == "HTTP" + "Server";
  }

  lemma SnakeCapitals()
    ensures Snake("ID") == "id" && Snake("HTTP") == "http"
  {
    SnakeCut("I", "D");
    SnakeCut("HT", "TP");
    SnakeCut("H", "T");
    SnakeCut("T", "P");
    SnakeWord("I");
    SnakeWord("D");
    SnakeWord("H");
    SnakeWord("T");
    SnakeWord("P");
    assert "ID" == "I" + "D" && "HT" == "H" + "T" && "TP" == "T" + "P" && "HTTP" == "HT" + "TP";
  }

  // ---- models --------------------------------------------------------------------------------------

  /** What is known of a model; a table name or primary keys that cannot be found are missing. */
  datatype Model = Model(name: string, table: Option<string>, pks: Option<seq<string>>,
    fields: map<string, string>, columns: set<string>)

  /** The association keys of a tag, their lists split. */
  datatype Keys = Keys(
    many2many: string, joinForeignKey: seq<string>, joinReferences: seq<string>,
    polymorphic: string, polymorphicValue: string, foreignKey: seq<string>, references: seq<string>)

  predicate AllMapped(m: Model, names: seq<string>) {
    forall i :: 0 <= i < |names| ==> names[i] in m.fields
  }

  function Mapped(m: Model, names: seq<string>): seq<string>
    requires AllMapped(m, names)
  {
    seq(|names|, i requires 0 <= i < |names| => m.fields[names[i]])
  }

  method ColumnsOf(m: Model, names: seq<string>) returns (cols: Option<seq<string>>)
    ensures cols == if AllMapped(m, names) then Some(Mapped(m, names)) else None
  {
    var out: seq<string> := [];
    for i := 0 to |names|
      invariant AllMapped(m, names[..i]) && out == Mapped(m, names[..i])
    {
      if names[i] !in m.fields {
        return None;
      }
      out := out + [m.fields[names[i]]];
    }
    assert names[..|names|] == names;
    return Some(out);
  }

  /** The named columns, or the primary key when none are named; none if a name or the key is missing. */
  function References(m: Model, names: seq<string>): Option<seq<string>> {
    if names == [] then (if m.pks.Some? && m.pks.value != [] then m.pks else None)
    else if AllMapped(m, names) then Some(Mapped(m, names))
    else None
  }

  method ColumnsOfOrDefault(m: Model, names: seq<string>) returns (cols: Option<seq<string>>)
    ensures cols == References(m, names)
  {
    if |names| == 0 {
      return if m.pks.Some? && m.pks.value != [] then m.pks else None;
    }
    cols := ColumnsOf(m, names);
  }

  // ---- direction -----------------------------------------------------------------------------------

  /** One direction: the foreign key in the child, or (belongs-to) in the parent. */
  datatype Candidate = Candidate(belongsTo: bool, fkSide: Model, refSide: Model, stem: string)

  function Convention(stem: string, refCols: seq<string>): seq<string> {
    seq(|refCols|, i requires 0 <= i < |refCols| => Snake(stem) + "_" + Snake(refCols[i]))
  }

  /** The foreign key columns a direction would use: the named ones, or those of the convention. */
  function ForeignKey(c: Candidate, fkNames: seq<string>, refCols: seq<string>): Option<seq<string>> {
    if fkNames == [] then Some(Convention(c.stem, refCols))
    else if AllMapped(c.fkSide, fkNames) then Some(Mapped(c.fkSide, fkNames))
    else None
  }

  predicate AllThere(m: Model, cols: seq<string>) {
    forall i :: 0 <= i < |cols| ==> cols[i] in m.columns
  }

  /** A direction is possible: as many foreign key as reference columns, at least one, all of them there. */
  predicate Fits(c: Candidate, fkNames: seq<string>, refNames: seq<string>) {
    var refs := References(c.refSide, refNames);
    refs.Some? &&
    var fks := ForeignKey(c, fkNames, refs.value);
    && fks.Some? && |fks.value| == |refs.value| > 0
    && AllThere(c.fkSide, fks.value) && AllThere(c.refSide, refs.value)
  }

  function Directed(child: string, c: Candidate, isSlice: bool, fkNames: seq<string>, refNames: seq<string>): Relation
    requires Fits(c, fkNames, refNames)
  {
    var refs := References(c.refSide, refNames).value;
    Relation(if c.belongsTo then BelongsTo else if isSlice then HasMany else HasOne,
             child, ForeignKey(c, fkNames, refs).value, refs, "", [], [], None)
  }

  method ConventionCols(stem: string, refCols: seq<string>) returns (fks: seq<string>)
    ensures fks == Convention(stem, refCols)
  {
    fks := [];
    for i := 0 to |refCols|
      invariant fks == Convention(stem, refCols[..i])
    {
      var head := ToSnake(stem);
      var tail := ToSnake(refCols[i]);
      fks := fks + [head + "_" + tail];
    }
    assert refCols[..|refCols|] == refCols;
  }

  method TryCandidate(child: string, c: Candidate, isSlice: bool, fkNames: seq<string>, refNames: seq<string>)
    returns (r: Option<Relation>)
    ensures r == if Fits(c, fkNames, refNames) then Some(Directed(child, c, isSlice, fkNames, refNames)) else None
  {
    var refs := ColumnsOfOrDefault(c.refSide, refNames);
    if refs.None? {
      return None;
    }
    var fkCols: seq<string>;
    if |fkNames| > 0 {
      var named := ColumnsOf(c.fkSide, fkNames);
      if named.None? {
        return None;
      }
      fkCols := named.value;
    } else {
      fkCols := ConventionCols(c.stem, refs.value);
    }
    if |fkCols| == 0 || |fkCols| != |refs.value| {
      return None;
    }
    for i := 0 to |fkCols|
      invariant AllThere(c.fkSide, fkCols[..i]) && AllThere(c.refSide, refs.value[..i])
    {
      if fkCols[i] !in c.fkSide.columns || refs.value[i] !in c.refSide.columns {
        return None;
      }
    }
    assert fkCols[..|fkCols|] == fkCols && refs.value[..|fkCols|] == refs.value;
    var kind := HasOne;
    if isSlice {
      kind := HasMany;
    }
    if c.belongsTo {
      kind := BelongsTo;
    }
    return Some(Relation(kind, child, fkCols, refs.value, "", [], [], None));
  }

  /** The direction with the foreign key in the child, and the one with it in the parent. */
  function HasCandidate(parent: Model, child: Model): Candidate
    requires parent.table.Some?
  {
    Candidate(false, child, parent, parent.table.value)
  }

  function BelongsCandidate(parent: Model, child: Model, fieldName: string): Candidate {
    Candidate(true, parent, child, fieldName)
  }

  /** Some direction is possible. */
  predicate SomeDirection(parent: Model, child: Model, fieldName: string, fkNames: seq<string>, refNames: seq<string>) {
    && parent.table.Some?
    && (Fits(HasCandidate(parent, child), fkNames, refNames) ||
        Fits(BelongsCandidate(parent, child, fieldName), fkNames, refNames))
  }

  /** The possible direction a field prefers: belongs-to for a single field, has-many for a slice. */
  predicate IsDirected(r: Relation, parent: Model, child: Model, fieldName: string, isSlice: bool,
                       fkNames: seq<string>, refNames: seq<string>)
    requires SomeDirection(parent, child, fieldName, fkNames, refNames)
  {
    var has, belongs := HasCandidate(parent, child), BelongsCandidate(parent, child, fieldName);
    && (r.kind == BelongsTo <==> Fits(belongs, fkNames, refNames) && (!isSlice || !Fits(has, fkNames, refNames)))
    && (r.kind != BelongsTo ==> r.kind == (if isSlice then HasMany else HasOne))
    && r == Directed(child.name, if r.kind == BelongsTo then belongs else has, isSlice, fkNames, refNames)
  }

  /** Slices try has-many first, single fields belongs-to first; the first possible direction wins. */
  method ResolveDirectional(parent: Model, child: Model, fieldName: string, isSlice: bool,
                            fkNames: seq<string>, refNames: seq<string>)
    returns (r: Option<Relation>)
    ensures r.Some? <==> SomeDirection(parent, child, fieldName, fkNames, refNames)
    ensures r.Some? ==>
              && Sound(r.value, parent, child)
              && IsDirected(r.value, parent, child, fieldName, isSlice, fkNames, refNames)
  {
    if parent.table.None? {
      return None;
    }
    var candidates := [HasCandidate(parent, child), BelongsCandidate(parent, child, fieldName)];
    if !isSlice {
      candidates := [candidates[1], candidates[0]];
    }
    hide Fits, Directed;
    for i := 0 to 2
      invariant forall j :: 0 <= j < i ==> !Fits(candidates[j], fkNames, refNames)
    {
      r := TryCandidate(child.name, candidates[i], isSlice, fkNames, refNames);
      if r.Some? {
        DirectedIsSound(parent, child, candidates[i], isSlice, fkNames, refNames);
        assert i == 1 ==> !Fits(candidates[0], fkNames, refNames);
        return;
      }
    }
    assert !Fits(candidates[0], fkNames, refNames) && !Fits(candidates[1], fkNames, refNames);
    return None;
  }

  lemma DirectedIsSound(parent: Model, child: Model, c: Candidate, isSlice: bool,
                        fkNames: seq<string>, refNames: seq<string>)
    requires Fits(c, fkNames, refNames)
    requires if c.belongsTo then c.fkSide == parent && c.refSide == child else c.fkSide == child && c.refSide == parent
    ensures var r := Directed(child.name, c, isSlice, fkNames, refNames);
      Sound(r, parent, child) && r.kind == if c.belongsTo then BelongsTo else if isSlice then HasMany else HasOne
  {
  }

  /** What the preloading engine relies on: paired, non-empty column lists that both sides have. */
  predicate Sound(r: Relation, parent: Model, child: Model) {
    && |r.fkCols| == |r.refCols| > 0
    && AllThere(if r.kind == BelongsTo then parent else child, r.fkCols)
    && AllThere(if r.kind == BelongsTo then child else parent, r.refCols)
  }

  /** The columns of named fields, or of the primary key where none are named. */
  ghost predicate ColumnsNamed(m: Model, names: seq<string>, cols: seq<string>) {
    if names == [] then m.pks == Some(cols) && cols != []
    else |cols| == |names| && forall i :: 0 <= i < |names| ==> names[i] in m.fields && cols[i] == m.fields[names[i]]
  }

  /**
   * Which columns a direction has: the reference columns are named or the primary key of the side they are
   * on; the foreign key columns are named, or made of the parent's table or the field's name and the
   * reference column, in snake form with an underscore between.
   */
  lemma DirectedColumns(r: Relation, parent: Model, child: Model, fieldName: string, isSlice: bool,
                        fkNames: seq<string>, refNames: seq<string>)
    requires SomeDirection(parent, child, fieldName, fkNames, refNames)
    requires IsDirected(r, parent, child, fieldName, isSlice, fkNames, refNames)
    ensures var inParent := r.kind == BelongsTo;
      && ColumnsNamed(if inParent then child else parent, refNames, r.refCols)
      && (fkNames != [] ==> ColumnsNamed(if inParent then parent else child, fkNames, r.fkCols))
      && (fkNames == [] ==>
            && |r.fkCols| == |r.refCols|
            && forall i :: 0 <= i < |r.fkCols| ==>
                 r.fkCols[i] == Snake(if inParent then fieldName else parent.table.value) + "_" + Snake(r.refCols[i]))
      && r.child == child.name && r.poly == None && r.kind != Many2Many
  {
    hide Snake;
  }

  // ---- tags ----------------------------------------------------------------------------------------

  /** Both hops by the mapping table's columns of the same names as the keys they hold. */
  predicate IsMany2Many(r: Relation, parent: Model, child: Model, joinTable: string,
                        joinFks: seq<string>, joinRefs: seq<string>)
  {
    && r.kind == Many2Many && r.child == child.name && r.joinTable == joinTable && r.poly == None
    && References(parent, joinFks) == Some(r.refCols) && References(child, joinRefs) == Some(r.fkCols)
    && r.joinFkCols == r.refCols != [] && r.joinRefCols == r.fkCols != []
  }

  method ResolveMany2Many(parent: Model, child: Model, joinTable: string, joinFks: seq<string>, joinRefs: seq<string>)
    returns (r: Option<Relation>)
    ensures r.Some? <==> References(parent, joinFks).Some? && References(child, joinRefs).Some?
    ensures r.Some? ==> IsMany2Many(r.value, parent, child, joinTable, joinFks, joinRefs)
  {
    var fks := ColumnsOfOrDefault(parent, joinFks);
    if fks.None? {
      return None;
    }
    var refs := ColumnsOfOrDefault(child, joinRefs);
    if refs.None? {
      return None;
    }
    return Some(Relation(Many2Many, child.name, refs.value, fks.value, joinTable, fks.value, refs.value, None));
  }

  function ColumnOr(m: Model, field: string, fallback: string): string {
    if field in m.fields then m.fields[field] else fallback
  }

  /** The child's columns that hold the parent's key: the named ones, or the one of the association's name. */
  function PolyKey(child: Model, poly: string, fkNames: seq<string>): Option<seq<string>> {
    if fkNames == [] then Some([ColumnOr(child, poly + "ID", Snake(poly) + "_id")])
    else if AllMapped(child, fkNames) then Some(Mapped(child, fkNames))
    else None
  }

  /** A polymorphic association can be resolved. */
  predicate PolyFits(parent: Model, child: Model, poly: string, polyValue: string,
                     fkNames: seq<string>, refNames: seq<string>)
  {
    var refs, fks := References(parent, refNames), PolyKey(child, poly, fkNames);
    refs.Some? && fks.Some? && |fks.value| == |refs.value| && (polyValue == "" ==> parent.table.Some?)
  }

  /** The parent's key in the child, and the child's column that says whose key it is. */
  predicate IsPolymorphic(r: Relation, parent: Model, child: Model, isSlice: bool, poly: string, polyValue: string,
                          fkNames: seq<string>, refNames: seq<string>)
    requires PolyFits(parent, child, poly, polyValue, fkNames, refNames)
  {
    && r.kind == (if isSlice then HasMany else HasOne) && r.child == child.name
    && PolyKey(child, poly, fkNames) == Some(r.fkCols) && References(parent, refNames) == Some(r.refCols)
    && |r.fkCols| == |r.refCols| > 0 && r.joinTable == "" && r.joinFkCols == r.joinRefCols == []
    && r.poly == Some((ColumnOr(child, poly + "Type", Snake(poly) + "_type"),
                       StrV(if polyValue == "" then parent.table.value else polyValue)))
  }

  method ResolvePolymorphic(parent: Model, child: Model, isSlice: bool, poly: string, polyValue: string,
                            fkNames: seq<string>, refNames: seq<string>)
    returns (r: Option<Relation>)
    ensures r.Some? <==> PolyFits(parent, child, poly, polyValue, fkNames, refNames)
    ensures r.Some? ==> IsPolymorphic(r.value, parent, child, isSlice, poly, polyValue, fkNames, refNames)
  {
    var refs := ColumnsOfOrDefault(parent, refNames);
    if refs.None? {
      return None;
    }
    var snake := ToSnake(poly);
    var fkCols: seq<string>;
    if |fkNames| > 0 {
      var named := ColumnsOf(child, fkNames);
      if named.None? {
        return None;
      }
      fkCols := named.value;
    } else {
      fkCols := [ColumnOr(child, poly + "ID", snake + "_id")];
    }
    if |fkCols| != |refs.value| {
      return None;
    }
    var value := polyValue;
    if value == "" {
      if parent.table.None? {
        return None;
      }
      value := parent.table.value;
    }
    return Some(Relation(if isSlice then HasMany else HasOne, child.name, fkCols, refs.value, "", [], [],
                         Some((ColumnOr(child, poly + "Type", snake + "_type"), StrV(value)))));
  }

  /** Which columns a polymorphic association has: fields called like it with ID and Type behind, or by convention. */
  lemma PolymorphicColumns(r: Relation, parent: Model, child: Model, isSlice: bool, poly: string, polyValue: string,
                           fkNames: seq<string>, refNames: seq<string>)
    requires PolyFits(parent, child, poly, polyValue, fkNames, refNames)
    requires IsPolymorphic(r, parent, child, isSlice, poly, polyValue, fkNames, refNames)
    ensures ColumnsNamed(parent, refNames, r.refCols) && (fkNames != [] ==> ColumnsNamed(child, fkNames, r.fkCols))
    ensures fkNames == [] ==>
              r.fkCols == [if poly + "ID" in child.fields then child.fields[poly + "ID"] else Snake(poly) + "_id"]
    ensures r.poly == Some((if poly + "Type" in child.fields then child.fields[poly + "Type"] else Snake(poly) + "_type",
                            StrV(if polyValue != "" then polyValue else parent.table.value)))
  {
    hide Snake;
  }

  /** Both hops of a many-to-many association are over named columns or the primary keys. */
  lemma Many2ManyColumns(r: Relation, parent: Model, child: Model, joinTable: string,
                         joinFks: seq<string>, joinRefs: seq<string>)
    requires IsMany2Many(r, parent, child, joinTable, joinFks, joinRefs)
    ensures ColumnsNamed(parent, joinFks, r.refCols) && ColumnsNamed(child, joinRefs, r.fkCols)
  {
  }

  /** Many-to-many before polymorphic before direction; and when each of them succeeds. */
  method ResolveTagged(parent: Model, child: Model, fieldName: string, isSlice: bool, keys: Keys)
    returns (r: Option<Relation>)
    ensures r.Some? <==>
              if keys.many2many != "" then
                References(parent, keys.joinForeignKey).Some? && References(child, keys.joinReferences).Some?
              else if keys.polymorphic != "" then
                PolyFits(parent, child, keys.polymorphic, keys.polymorphicValue, keys.foreignKey, keys.references)
              else SomeDirection(parent, child, fieldName, keys.foreignKey, keys.references)
    ensures r.Some? ==> Usable(r.value) && r.value.child == child.name
    ensures r.Some? ==>
              if keys.many2many != "" then
                IsMany2Many(r.value, parent, child, keys.many2many, keys.joinForeignKey, keys.joinReferences)
              else if keys.polymorphic != "" then
                IsPolymorphic(r.value, parent, child, isSlice, keys.polymorphic, keys.polymorphicValue,
                              keys.foreignKey, keys.references)
              else
                && Sound(r.value, parent, child)
                && IsDirected(r.value, parent, child, fieldName, isSlice, keys.foreignKey, keys.references)
  {
    if keys.many2many != "" {
      r := ResolveMany2Many(parent, child, keys.many2many, keys.joinForeignKey, keys.joinReferences);
      return;
    }
    if keys.polymorphic != "" {
      r := ResolvePolymorphic(parent, child, isSlice, keys.polymorphic, keys.polymorphicValue,
                               keys.foreignKey, keys.references);
      return;
    }
    r := ResolveDirectional(parent, child, fieldName, isSlice, keys.foreignKey, keys.references);
  }

  /** Keys can be compared column by column, across the join table too. */
  predicate Usable(r: Relation) {
    if r.kind == Many2Many then
      r.refCols == r.joinFkCols != [] && r.fkCols == r.joinRefCols != [] && r.joinTable != ""
    else |r.fkCols| == |r.refCols| > 0
  }

  /** Rows whose key columns have the types of a key's components. */
  predicate SameTypes(table: seq<Cols>, cols: seq<string>, key: seq<Value>) {
    forall r, i :: r in table && 0 <= i < |cols| && i < |key| ==> Comparable(KeyTuple(r, cols)[i], key[i])
  }

  /** Two rows of a mapping table that the given column lists were read into. */
  predicate ReadAs(r: Relation, rows: seq<JoinRow>) {
    forall m :: m in rows ==> |m.fk| == |r.joinFkCols| && |m.ref| == |r.joinRefCols|
  }

  /** A key that needs no care: one column, or one that shares its joined key with no other. */
  ghost predicate Lone(key: seq<Value>) {
    |key| <= 1 || Firm(key)
  }

  /**
   * What preloading asks of its keys holds of every resolved relation: the tuples have equal widths, so
   * columns of equal types and one key that shares its joined key with no other are enough.
   */
  lemma ResolvedComparable(r: Relation, table: seq<Cols>, parent: Cols)
    requires Usable(r) && r.kind != Many2Many
    requires var key := KeyTuple(parent, r.ParentCols()); SameTypes(table, r.QueryCols(), key) && Lone(key)
    ensures KeysComparable(table, r.QueryCols(), KeyTuple(parent, r.ParentCols()))
  {
    var key := KeyTuple(parent, r.ParentCols());
    hide Comparable, Firm;
    forall row | row in table ensures TuplesComparable(KeyTuple(row, r.QueryCols()), key) {
      assert AllComparable(KeyTuple(row, r.QueryCols()), key);
    }
  }

  /** Mapping rows and children whose columns have the types of a key's and of each other; referenced keys are lone. */
  ghost predicate SameMappingTypes(r: Relation, table: seq<Cols>, rows: seq<JoinRow>, key: seq<Value>) {
    && (forall m, i :: m in rows && 0 <= i < |key| && i < |m.fk| ==> Comparable(m.fk[i], key[i]))
    && (forall m :: m in rows ==> Lone(m.ref))
    && (forall m, n, i :: m in rows && n in rows && 0 <= i < |m.ref| && i < |n.ref| ==> Comparable(m.ref[i], n.ref[i]))
    && (forall m, row, i :: m in rows && row in table && 0 <= i < |m.ref| && i < |r.fkCols| ==>
          Comparable(m.ref[i], KeyTuple(row, r.fkCols)[i]))
  }

  /** Likewise across a mapping table: its key columns pair with the parent's and the child's. */
  lemma ResolvedJoinComparable(r: Relation, table: seq<Cols>, rows: seq<JoinRow>, parent: Cols)
    requires Usable(r) && r.kind == Many2Many && ReadAs(r, rows)
    requires var key := KeyTuple(parent, r.refCols); Lone(key) && SameMappingTypes(r, table, rows, key)
    ensures JoinComparable(table, rows, r.fkCols, KeyTuple(parent, r.refCols))
  {
    var key := KeyTuple(parent, r.refCols);
    hide Comparable, Firm;
    forall m | m in rows ensures TuplesComparable(m.fk, key) {
      assert AllComparable(m.fk, key);
    }
    forall m, row | m in rows && row in table ensures TuplesComparable(m.ref, KeyTuple(row, r.fkCols)) {
      assert AllComparable(m.ref, KeyTuple(row, r.fkCols));
    }
    forall m, n | m in rows && n in rows ensures TuplesComparable(m.ref, n.ref) {
      assert AllComparable(m.ref, n.ref);
    }
  }

  lemma KeyedNotNull(row: Cols, cols: seq<string>)
    requires Keyed(row, cols)
    ensures Null !in KeyTuple(row, cols)
  {
    forall i | 0 <= i < |cols| ensures KeyTuple(row, cols)[i] != Null {
      assert cols[i] in cols;
    }
  }

  /**
   * Preloading a resolved relation gives a keyed parent its nested-loop children, as often as batches
   * hold its key, under nothing but hypotheses on column types and on its own key.
   */
  lemma ResolvedDirect(r: Relation, db: Db, schema: Schema, cond: Cols -> bool, tuples: seq<seq<Value>>, parent: Cols)
    requires Usable(r) && r.kind != Many2Many && Keyed(parent, r.ParentCols())
    requires var key := KeyTuple(parent, r.ParentCols());
      key in tuples && SameTypes(db.Table(r.child), r.QueryCols(), key) && Lone(key)
    ensures var key := KeyTuple(parent, r.ParentCols());
      DirectGroup(db, schema, r, cond, tuples, key) ==
      Repeat(Children(db.Table(r.child), r.QueryCols(), Passing(schema, r, cond), key),
             Copies(r.QueryCols(), tuples, key))
  {
    var key := KeyTuple(parent, r.ParentCols());
    ResolvedComparable(r, db.Table(r.child), parent);
    KeyedNotNull(parent, r.ParentCols());
    PreloadRefinesNestedLoop(db.Table(r.child), r.QueryCols(), tuples, Passing(schema, r, cond), key);
  }

  /** Preloading a resolved many-to-many relation gives a keyed parent its join through the mapping table, likewise. */
  lemma ResolvedMany2Many(r: Relation, db: Db, schema: Schema, cond: Cols -> bool, tuples: seq<seq<Value>>, parent: Cols)
    requires Usable(r) && r.kind == Many2Many && Keyed(parent, r.refCols) && ReadAs(r, db.Joins(r.joinTable))
    requires var key := KeyTuple(parent, r.refCols);
      key in tuples && Lone(key) && SameMappingTypes(r, db.Table(r.child), db.Joins(r.joinTable), key)
    ensures var key := KeyTuple(parent, r.refCols);
      var group := Many2ManyGroup(db, schema, r, cond, tuples, key);
      var want := LinkedChildren(db.Table(r.child), db.Joins(r.joinTable), r.fkCols, Passing(schema, r, cond), key);
      multiset(group) == multiset(want) && (|r.fkCols| == 1 ==> group == want)
  {
    var key := KeyTuple(parent, r.refCols);
    ResolvedJoinComparable(r, db.Table(r.child), db.Joins(r.joinTable), parent);
    KeyedNotNull(parent, r.refCols);
    Many2ManyIsJoin(db.Table(r.child), db.Joins(r.joinTable), r.fkCols, r.joinFkCols, tuples, Passing(schema, r, cond),
                    key);
  }
}
