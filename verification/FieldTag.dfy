/** What the tokens of an orm tag mean: parseFieldTag, and printing its result canonically. */
module FieldTag {
  import opened Ascii
  import opened Sequences
  import opened TagTokenizer

  /** The boolean fields of a field's meta: a flag is in the set when its field is true. */
  datatype Flag =
    | Ignored | ReadOnly | WriteOnly | PrimaryKey | AutoIncrement | NotNullable | Nullable | Indexed
    | InUnique | HasDefault
    | OnCreate | OnUpdate | Versioned | InUtc | InLocal | Embedded | IsUnsigned | AsJson

  datatype FieldMeta = FieldMeta(
    flags: set<Flag>, columnName: string, sqlType: string, indexName: string, uniqueName: string,
    default: string, comment: string, extendsPrefix: string, collate: string)
  {
    function Set(f: Flag): FieldMeta {
      this.(flags := flags + {f})
    }
  }

  const EMPTY: FieldMeta := FieldMeta({}, "", "", "", "", "", "", "", "")

  datatype TagError =
    | Syntax(at: SyntaxError)
    | ColumnWithParams(raw: string)
    | LoneNot
    | MissingDefault
    | MissingCollate
    | Disabled(word: string)
    | UnknownWord(raw: string)

  /** The words the dispatch knows. */
  datatype Keyword =
    | Dash | OnlyRead | OnlyWrite | Pk | Autoincr | Notnull | Null | Not | Index | Unique | Default | Comment
    | Created | Updated | Deleted | Version | Utc | Local | Extends | Unsigned | Collate | Json | Jsonb
    | Cache | Nocache

  function Spelling(k: Keyword): string {
    match k
    case Dash => "-" case OnlyRead => "<-" case OnlyWrite => "->" case Pk => "pk" case Autoincr => "autoincr"
    case Notnull => "notnull" case Null => "null" case Not => "not" case Index => "index" case Unique => "unique"
    case Default => "default" case Comment => "comment" case Created => "created" case Updated => "updated"
    case Deleted => "deleted" case Version => "version" case Utc => "utc" case Local => "local"
    case Extends => "extends" case Unsigned => "unsigned" case Collate => "collate" case Json => "json"
    case Jsonb => "jsonb" case Cache => "cache" case Nocache => "nocache"
  }

  /** Words are compared without regard to (ASCII) case. */
  function Lower(s: string): string {
    seq(|s|, i requires 0 <= i < |s| => ToLower(s[i]))
  }

  /** The keyword a word stands for, if it is one. */
  function Classify(name: string): Option<Keyword> {
    match Lower(name)
    case "-" => Some(Dash)
    case "<-" => Some(OnlyRead)
    case "->" => Some(OnlyWrite)
    case "pk" => Some(Pk)
    case "autoincr" => Some(Autoincr)
    case "notnull" => Some(Notnull)
    case "null" => Some(Null)
    case "not" => Some(Not)
    case "index" => Some(Index)
    case "unique" => Some(Unique)
    case "default" => Some(Default)
    case "comment" => Some(Comment)
    case "created" => Some(Created)
    case "updated" => Some(Updated)
    case "deleted" => Some(Deleted)
    case "version" => Some(Version)
    case "utc" => Some(Utc)
    case "local" => Some(Local)
    case "extends" => Some(Extends)
    case "unsigned" => Some(Unsigned)
    case "collate" => Some(Collate)
    case "json" => Some(Json)
    case "jsonb" => Some(Jsonb)
    case "cache" => Some(Cache)
    case "nocache" => Some(Nocache)
    case _ => None
  }

  /** The SQL type names a tag may use. */
  predicate IsSqlWord(w: string) {
    match w
    case "bit" | "tinyint" | "smallint" | "mediumint" | "int" | "integer" | "bigint" | "number" | "int8" => true
    case "enum" | "set" | "xml" | "char" | "nchar" | "varchar" | "varchar2" | "nvarchar" | "tinytext" => true
    case "text" | "ntext" | "mediumtext" | "longtext" | "uuid" | "clob" | "sysname" | "date" | "datetime" => true
    case "time" | "timestamp" | "timestampz" | "smalldatetime" | "year" | "decimal" | "numeric" | "real" | "float" => true
    case "double" | "money" | "smallmoney" | "binary" | "varbinary" | "tinyblob" | "blob" | "mediumblob"
       | "longblob" => true
    case "bytea" | "uniqueidentifier" | "bool" | "boolean" | "serial" | "bigserial" | "array" => true
    case _ => false
  }

  /** The first parameter without its quotes, if there is one. */
  function FirstParam(tok: RawToken): Option<string> {
    if tok.hasCond && tok.params != [] then Some(UnquoteParam(tok.params[0])) else None
  }

  function Named(p: Option<string>, before: string): string {
    if p.Some? then p.value else before
  }

  /** What a keyword with parameter p sets, and how many tokens that uses. */
  function TakeKeyword(k: Keyword, p: Option<string>, next: Option<RawToken>, m: FieldMeta)
    : Result<(FieldMeta, nat), TagError>
  {
    match k
    case Dash => Ok((m.Set(Ignored), 1))
    case OnlyRead => Ok((m.Set(ReadOnly), 1))
    case OnlyWrite => Ok((m.Set(WriteOnly), 1))
    case Pk => Ok((m.Set(PrimaryKey), 1))
    case Autoincr => Ok((m.Set(AutoIncrement), 1))
    case Notnull => Ok((m.Set(NotNullable), 1))
    case Null => Ok((m.Set(Nullable), 1))
    case Not =>
      if next.None? || next.value.quoted || Lower(next.value.name) != "null" then Err(LoneNot)
      else Ok((m.Set(NotNullable), 2))
    case Index => Ok((m.Set(Indexed).(indexName := Named(p, m.indexName)), 1))
    case Unique => Ok((m.Set(InUnique).(uniqueName := Named(p, m.uniqueName)), 1))
    case Default =>
      if p.Some? then Ok((m.Set(HasDefault).(default := p.value), 1))
      else if next.None? then Err(MissingDefault)
      else Ok((m.Set(HasDefault).(default := next.value.name), 2))
    case Comment => Ok((m.(comment := Named(p, m.comment)), 1))
    case Created => Ok((m.Set(OnCreate), 1))
    case Updated => Ok((m.Set(OnUpdate), 1))
    case Deleted => Err(Disabled(Spelling(k)))
    case Version => Ok((m.Set(Versioned), 1))
    case Utc => Ok((m.Set(InUtc), 1))
    case Local => Ok((m.Set(InLocal), 1))
    case Extends => Ok((m.Set(Embedded).(extendsPrefix := Named(p, m.extendsPrefix)), 1))
    case Unsigned => Ok((m.Set(IsUnsigned), 1))
    case Collate =>
      if p.Some? then Ok((m.(collate := p.value), 1))
      else if next.None? then Err(MissingCollate)
      else Ok((m.(collate := next.value.name), 2))
    case Json => Ok((m.Set(AsJson), 1))
    case Jsonb => Ok((m.Set(AsJson), 1))
    case Cache => Err(Disabled(Spelling(k)))
    case Nocache => Err(Disabled(Spelling(k)))
  }

  predicate IsSqlType(name: string) {
    IsSqlWord(Lower(name))
  }

  function TakeBare(k: Option<Keyword>, tok: RawToken, next: Option<RawToken>, m: FieldMeta)
    : Result<(FieldMeta, nat), TagError>
  {
    if k.Some? then TakeKeyword(k.value, FirstParam(tok), next, m)
    else if IsSqlType(tok.name) then Ok((m.(sqlType := tok.raw), 1))
    else Err(UnknownWord(tok.raw))
  }

  /** One token, perhaps together with the next: the meta it leaves and how many tokens it used. */
  function Take(tok: RawToken, next: Option<RawToken>, m: FieldMeta): Result<(FieldMeta, nat), TagError> {
    if !tok.quoted then TakeBare(Classify(tok.name), tok, next, m)
    else if tok.hasCond then Err(ColumnWithParams(tok.raw))
    else Ok((m.(columnName := tok.name), 1))
  }

  function Next(toks: seq<RawToken>): Option<RawToken> {
    if |toks| > 1 then Some(toks[1]) else None
  }

  function Parse(toks: seq<RawToken>, m: FieldMeta): Result<FieldMeta, TagError>
    decreases |toks|
  {
    if toks == [] then Ok(m)
    else
      match Take(toks[0], Next(toks), m)
      case Err(e) => Err(e)
      case Ok((m', n)) => if 0 < n <= |toks| then Parse(toks[n..], m') else Err(LoneNot)
  }

  function ParseTag(tag: string): Result<FieldMeta, TagError> {
    match Split(tag)
    case Err(e) => Err(Syntax(e))
    case Ok(toks) => Parse(toks, EMPTY)
  }

  lemma KeywordUses(k: Keyword, p: Option<string>, next: Option<RawToken>, m: FieldMeta)
    ensures var t := TakeKeyword(k, p, next, m); t.Ok? ==> t.value.1 == 1 || (t.value.1 == 2 && next.Some?)
  {
  }

  lemma TakeUses(tok: RawToken, next: Option<RawToken>, m: FieldMeta)
    ensures var t := Take(tok, next, m); t.Ok? ==> t.value.1 == 1 || (t.value.1 == 2 && next.Some?)
  {
    var k := Classify(tok.name);
    if k.Some? {
      KeywordUses(k.value, FirstParam(tok), next, m);
    }
  }

  /** One turn of the loop: the parse goes on behind what the step has used. */
  method TakeAt(tokens: seq<RawToken>, i: nat, m: FieldMeta) returns (step: Result<(FieldMeta, nat), TagError>)
    requires i < |tokens|
    ensures step.Err? ==> Parse(tokens[i..], m) == Err(step.error)
    ensures step.Ok? ==> 0 < step.value.1 && i + step.value.1 <= |tokens|
    ensures step.Ok? ==> Parse(tokens[i..], m) == Parse(tokens[i + step.value.1..], step.value.0)
  {
    step := Take(tokens[i], if i + 1 < |tokens| then Some(tokens[i + 1]) else None, m);
    TakeUses(tokens[i], Next(tokens[i..]), m);
    if step.Ok? {
      assert tokens[i..][step.value.1..] == tokens[i + step.value.1..];
    }
  }

  /** Parses one field's tag; the loop skips a token that the one before it has used. */
  method ParseFieldTag(tag: string) returns (r: Result<FieldMeta, TagError>)
    ensures r == ParseTag(tag)
  {
    hide Take;
    var split := SplitTag(tag);
    if split.Err? {
      return Err(Syntax(split.error));
    }
    var tokens, meta := split.value, EMPTY;
    var i := 0;
    while i < |tokens|
      invariant i <= |tokens|
      invariant Parse(tokens[i..], meta) == Parse(tokens, EMPTY)
    {
      var step := TakeAt(tokens, i, meta);
      if step.Err? {
        return Err(step.error);
      }
      meta := step.value.0;
      i := i + step.value.1;
    }
    return Ok(meta);
  }
}
