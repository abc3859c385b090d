/** Column type rendering: the seven categories of SQL Server column type, the text
    of a type with its length/precision/scale parameters, and the column definition
    used in CREATE TABLE, ADD COLUMN and ALTER COLUMN statements. Each renderer has a
    decoder beside it, and the lemmas prove that decoding a rendering gives back what
    was rendered. */
module ColumnTypes {
  import opened Values

  // ---------------------------------------------------------------------------
  // Categories
  // ---------------------------------------------------------------------------

  const IntTypes: set<string> := {"bigint", "int", "smallint", "tinyint"}
  const NumericTypes: set<string> := {"decimal", "numeric"}
  const MoneyTypes: set<string> := {"money", "smallmoney"}
  const ApproxNumberTypes: set<string> := {"float", "real"}
  const DatetimeNoPrecisionTypes: set<string> := {"date", "datetime", "smalldatetime"}
  const DatetimePrecisionTypes: set<string> := {"time", "datetime2", "datetimeoffset"}
  const CharTypes: set<string> := {"char", "varchar", "nchar", "nvarchar", "binary", "varbinary"}

  /** How a type's text is formed: bare, with one parameter, or with up to two. */
  datatype Category =
    | IntCategory
    | NumericCategory
    | MoneyCategory
    | ApproxCategory
    | DatetimeNoPrecisionCategory
    | DatetimePrecisionCategory
    | CharCategory

  function CategorySet(c: Category): set<string>
  {
    match c
    case IntCategory => IntTypes
    case NumericCategory => NumericTypes
    case MoneyCategory => MoneyTypes
    case ApproxCategory => ApproxNumberTypes
    case DatetimeNoPrecisionCategory => DatetimeNoPrecisionTypes
    case DatetimePrecisionCategory => DatetimePrecisionTypes
    case CharCategory => CharTypes
  }

  /** The category a type name belongs to, or None for an unsupported name. */
  function CategoryOf(t: string): (r: Option<Category>)
    ensures r.Some? ==> t in CategorySet(r.value)
    ensures r.None? ==> forall c: Category :: t !in CategorySet(c)
  {
    if t in IntTypes then Some(IntCategory)
    else if t in NumericTypes then Some(NumericCategory)
    else if t in MoneyTypes then Some(MoneyCategory)
    else if t in ApproxNumberTypes then Some(ApproxCategory)
    else if t in DatetimeNoPrecisionTypes then Some(DatetimeNoPrecisionCategory)
    else if t in DatetimePrecisionTypes then Some(DatetimePrecisionCategory)
    else if t in CharTypes then Some(CharCategory)
    else None
  }

  /** The seven category sets are pairwise disjoint, so a supported type name lies in
      exactly one of them and exactly one rendering branch applies to it. */
  lemma CategoriesDisjoint(t: string, c1: Category, c2: Category)
    requires t in CategorySet(c1) && t in CategorySet(c2)
    ensures c1 == c2
    ensures CategoryOf(t) == Some(c1)
  {
  }

  /** No supported type name contains a character the decoders treat specially. */
  lemma TypeNamesPlain(t: string)
    requires CategoryOf(t).Some?
    ensures '(' !in t && ')' !in t && ',' !in t && ' ' !in t
  {
  }

  // ---------------------------------------------------------------------------
  // Parameter text (Python `'{}'.format(v)`)
  // ---------------------------------------------------------------------------

  predicate IsDigit(c: char)
  {
    '0' <= c <= '9'
  }

  predicate AllDigits(s: string)
  {
    forall i :: 0 <= i < |s| ==> IsDigit(s[i])
  }

  function DigitChar(d: nat): (c: char)
    requires d < 10
    ensures IsDigit(c) && c as int - '0' as int == d
  {
    "0123456789"[d]
  }

  function NatToString(n: nat): (r: string)
    ensures |r| >= 1 && AllDigits(r)
    decreases n
  {
    if n < 10 then [DigitChar(n)] else NatToString(n / 10) + [DigitChar(n % 10)]
  }

  function IntToString(i: int): (r: string)
    ensures |r| >= 1
  {
    if i < 0 then "-" + NatToString(-i) else NatToString(i)
  }

  /** A numeral holds only digits and a minus sign. */
  lemma IntToStringPlain(i: int)
    ensures '(' !in IntToString(i) && ')' !in IntToString(i)
    ensures ',' !in IntToString(i) && ' ' !in IntToString(i)
  {
    var d := NatToString(if i < 0 then -i else i);
    assert forall c :: c in d ==> IsDigit(c);
  }

  function ParseNat(s: string): nat
    requires AllDigits(s)
    decreases |s|
  {
    if s == [] then 0 else ParseNat(s[..|s| - 1]) * 10 + (s[|s| - 1] as int - '0' as int)
  }

  /** The integer a decimal numeral denotes, if it is one. */
  function ParseInt(s: string): Option<int>
  {
    if s == [] then None
    else if s[0] == '-' then
      if |s| > 1 && AllDigits(s[1..]) then Some(0 - ParseNat(s[1..])) else None
    else if AllDigits(s) then Some(ParseNat(s))
    else None
  }

  lemma {:induction false} ParseNatToString(n: nat)
    ensures ParseNat(NatToString(n)) == n
    decreases n
  {
    if n >= 10 {
      var s := NatToString(n);
      assert s == NatToString(n / 10) + [DigitChar(n % 10)];
      assert s[..|s| - 1] == NatToString(n / 10);
      ParseNatToString(n / 10);
    }
  }

  /** Decimal numerals round-trip: reading back the text of an integer gives it. */
  lemma ParseIntToString(i: int)
    ensures ParseInt(IntToString(i)) == Some(i)
  {
    if i < 0 {
      var d := NatToString(-i);
      var s := "-" + d;
      assert s[0] == '-' && s[1..] == d;
      ParseNatToString(-i);
      assert ParseInt(s) == Some(0 - ParseNat(d));
    } else {
      var s := NatToString(i);
      assert s[0] != '-' by { assert IsDigit(s[0]); }
      ParseNatToString(i);
      assert ParseInt(s) == Some(ParseNat(s));
    }
  }

  /** A parameter as Python's `'{}'.format` writes it: `None` for a missing one,
      `True` or `False`, the decimal numeral of an integer, and a string as it is
      (so a length given as `max` is written `max`). */
  function ParamText(p: Value): string
  {
    match p
    case VNone => "None"
    case VBool(b) => if b then "True" else "False"
    case VInt(n) => IntToString(n)
    case VStr(s) => s
    case VSet(_) => ""
    case VTuple(_) => ""
    case VDecimal(h) => DecimalText(h)
  }

  /** `'{}'.format` of a two-place decimal: sign, integer part, point, two digits. */
  function DecimalText(h: int): string
  {
    var m: nat := if h < 0 then -h else h;
    (if h < 0 then "-" else "") + NatToString(m / 100) + "." + [DigitChar(m % 100 / 10), DigitChar(m % 10)]
  }

  /** Reads a parameter text back: the words `None`, `True` and `False`, a
      numeral, and otherwise the text itself. */
  function ParseParam(s: string): Value
  {
    if s == "None" then VNone
    else if s == "True" then VBool(true)
    else if s == "False" then VBool(false)
    else match ParseInt(s)
      case Some(n) => VInt(n)
      case None => VStr(s)
  }

  /** A parameter whose text stands alone in a type text and reads back as itself:
      anything but a set or a tuple, and for a string one without a comma or a
      space that is neither a numeral nor one of the words `None`, `True` and
      `False`. */
  predicate Plain(p: Value)
  {
    match p
    case VSet(_) => false
    case VTuple(_) => false
    case VDecimal(_) => false
    case VStr(s) =>
      ',' !in s && ' ' !in s && s != "None" && s != "True" && s != "False" && ParseInt(s).None?
    case _ => true
  }

  predicate AllPlain(ps: seq<Value>)
  {
    forall i :: 0 <= i < |ps| ==> Plain(ps[i])
  }

  /** The text of a plain parameter holds no separator and reads back as the
      parameter. */
  lemma ParseParamText(p: Value)
    requires Plain(p)
    ensures ParseParam(ParamText(p)) == p
    ensures ',' !in ParamText(p) && ' ' !in ParamText(p)
  {
    match p
    case VInt(n) =>
      ParseIntToString(n);
      IntToStringPlain(n);
      assert IntToString(n) != "None" && IntToString(n) != "True" && IntToString(n) != "False" by {
        if n < 0 {
        } else {
          assert IsDigit(IntToString(n)[0]);
        }
      }
    case _ =>
  }

  // ---------------------------------------------------------------------------
  // Type text
  // ---------------------------------------------------------------------------

  /** The parameters of a column type, as the declared and reflected columns hold
      them (`None` where absent). */
  datatype TypeParams = TypeParams(
    charMaxLen: Value,
    datetimePrecision: Value,
    numericPrecision: Value,
    numericScale: Value)

  function Parenthesised(t: string, params: seq<Value>): string
  {
    t + "(" + Join(",", ParamTexts(params)) + ")"
  }

  function ParamTexts(params: seq<Value>): (r: seq<string>)
    ensures |r| == |params|
    ensures forall i :: 0 <= i < |params| ==> r[i] == ParamText(params[i])
  {
    if params == [] then [] else [ParamText(params[0])] + ParamTexts(params[1..])
  }

  /** The parameters written out for type `t`, in order; None when the rendering
      raises. This is the reference the renderer is proved against. */
  function RenderedParams(t: string, p: TypeParams): Option<seq<Value>>
  {
    match CategoryOf(t)
    case None => None
    case Some(c) =>
      match c
      case IntCategory => Some([])
      case MoneyCategory => Some([])
      case DatetimeNoPrecisionCategory => Some([])
      case NumericCategory =>
        if p.numericPrecision == VNone then None
        else if p.numericScale != VNone then Some([p.numericPrecision, p.numericScale])
        else Some([p.numericPrecision])
      case ApproxCategory =>
        if p.numericPrecision == VNone then None else Some([p.numericPrecision])
      case DatetimePrecisionCategory => Some([p.datetimePrecision])
      case CharCategory =>
        if p.charMaxLen == VNone then None else Some([p.charMaxLen])
  }

  /** `data_type_representation`: the SQL text of a column type. Raises ValueError
      for an unsupported type name, for a numeric or approximate type without a
      precision, and for a character type without a length; a missing datetime
      precision is not checked and is written as `None`. */
  function DataTypeRepresentation(t: string, p: TypeParams): (r: Result<string>)
    ensures r.Fail? ==> r.error == ValueError
    ensures r.Fail? <==>
      (CategoryOf(t).None?
       || (t in NumericTypes + ApproxNumberTypes && p.numericPrecision == VNone)
       || (t in CharTypes && p.charMaxLen == VNone))
    ensures t in IntTypes + MoneyTypes + DatetimeNoPrecisionTypes ==> r == Ok(t)
  {
    if t in IntTypes + MoneyTypes + DatetimeNoPrecisionTypes then Ok(t)
    else if t in NumericTypes + ApproxNumberTypes then
      if p.numericPrecision == VNone then Fail(ValueError)
      else if t in NumericTypes && p.numericScale != VNone then
        Ok(t + "(" + ParamText(p.numericPrecision) + "," + ParamText(p.numericScale) + ")")
      else Ok(t + "(" + ParamText(p.numericPrecision) + ")")
    else if t in DatetimePrecisionTypes then Ok(t + "(" + ParamText(p.datetimePrecision) + ")")
    else if t in CharTypes then
      if p.charMaxLen == VNone then Fail(ValueError)
      else Ok(t + "(" + ParamText(p.charMaxLen) + ")")
    else Fail(ValueError)
  }

  /** A string length is written as it is: the maximum-length character type. */
  lemma MaxLengthRendering()
    ensures DataTypeRepresentation("nvarchar", TypeParams(VStr("max"), VInt(7), VNone, VNone)) == Ok("nvarchar(max)")
  {
    assert "nvarchar" !in IntTypes + MoneyTypes + DatetimeNoPrecisionTypes;
    assert "nvarchar" !in NumericTypes + ApproxNumberTypes;
    assert "nvarchar" !in DatetimePrecisionTypes && "nvarchar" in CharTypes;
    assert ParamText(VStr("max")) == "max";
    assert "nvarchar" + "(" + "max" + ")" == "nvarchar(max)";
  }

  /** The rendering is the bare name when no parameter is written, and the name with
      its parameter list in parentheses otherwise. */
  lemma RenderingShape(t: string, p: TypeParams)
    requires DataTypeRepresentation(t, p).Ok?
    ensures RenderedParams(t, p).Some?
    ensures var ps := RenderedParams(t, p).value;
      DataTypeRepresentation(t, p).value == if ps == [] then t else Parenthesised(t, ps)
  {
    var c := CategoryOf(t).value;
    if c == NumericCategory && p.numericScale != VNone {
      TwoParams(t, p.numericPrecision, p.numericScale);
    } else if c == NumericCategory || c == ApproxCategory {
      OneParam(t, p.numericPrecision);
    } else if c == DatetimePrecisionCategory {
      OneParam(t, p.datetimePrecision);
    } else if c == CharCategory {
      OneParam(t, p.charMaxLen);
    }
  }

  lemma OneParam(t: string, a: Value)
    ensures Parenthesised(t, [a]) == t + "(" + ParamText(a) + ")"
  {
    assert ParamTexts([a]) == [ParamText(a)];
  }

  lemma TwoParams(t: string, a: Value, b: Value)
    ensures Parenthesised(t, [a, b]) == t + "(" + ParamText(a) + "," + ParamText(b) + ")"
  {
    assert ParamTexts([a, b]) == [ParamText(a), ParamText(b)];
    assert Join(",", [ParamText(a), ParamText(b)]) == ParamText(a) + "," + ParamText(b);
  }

  /** A type text taken apart: the name and the parameter list between the
      parentheses (empty when there are none). */
  datatype TypeText = TypeText(name: string, params: seq<Value>)

  function IndexOf(s: string, c: char): (r: nat)
    ensures r <= |s|
    ensures r < |s| ==> s[r] == c
    ensures c !in s[..r]
    ensures c in s <==> r < |s|
  {
    if s == [] then 0
    else if s[0] == c then 0
    else
      assert s[1..][..IndexOf(s[1..], c)] == s[1..1 + IndexOf(s[1..], c)];
      1 + IndexOf(s[1..], c)
  }

  function ParseParams(texts: seq<string>): (r: seq<Value>)
    ensures |r| == |texts|
  {
    if texts == [] then [] else [ParseParam(texts[0])] + ParseParams(texts[1..])
  }

  /** Reads a type text back. */
  function DecodeTypeText(s: string): Option<TypeText>
  {
    var k := IndexOf(s, '(');
    if k == |s| then Some(TypeText(s, []))
    else if s[|s| - 1] != ')' || k + 1 > |s| - 1 then None
    else
      Some(TypeText(s[..k], ParseParams(Split(s[k + 1..|s| - 1], ','))))
  }

  lemma {:induction false} ParseParamTexts(params: seq<Value>)
    requires AllPlain(params)
    ensures ParseParams(ParamTexts(params)) == params
    decreases |params|
  {
    if params != [] {
      ParseParamText(params[0]);
      ParseParamTexts(params[1..]);
      assert ParamTexts(params)[1..] == ParamTexts(params[1..]);
      assert [params[0]] + params[1..] == params;
    }
  }

  /** The texts of plain parameters hold no comma and no space. */
  lemma PlainTexts(params: seq<Value>)
    requires AllPlain(params)
    ensures forall i :: 0 <= i < |params| ==> ',' !in ParamTexts(params)[i] && ' ' !in ParamTexts(params)[i]
  {
    forall i | 0 <= i < |params|
      ensures ',' !in ParamTexts(params)[i] && ' ' !in ParamTexts(params)[i]
    {
      ParseParamText(params[i]);
    }
  }

  lemma DecodeParenthesised(t: string, params: seq<Value>)
    requires '(' !in t
    requires AllPlain(params)
    requires |params| >= 1
    ensures DecodeTypeText(Parenthesised(t, params)) == Some(TypeText(t, params))
  {
    var inner := Join(",", ParamTexts(params));
    var s := Parenthesised(t, params);
    assert s == t + "(" + inner + ")";
    assert s[..|t|] == t;
    assert s[|t|] == '(';
    assert IndexOf(s, '(') == |t|;
    assert s[|t| + 1..|s| - 1] == inner;
    PlainTexts(params);
    SplitJoin(ParamTexts(params), ',');
    ParseParamTexts(params);
  }

  /** Decoding a rendered type text gives back the type name and exactly the
      parameters its category writes out, when those parameters are plain. */
  lemma {:induction false} DataTypeRoundTrip(t: string, p: TypeParams)
    requires DataTypeRepresentation(t, p).Ok?
    requires RenderedParams(t, p).Some? ==> AllPlain(RenderedParams(t, p).value)
    ensures RenderedParams(t, p).Some?
    ensures DecodeTypeText(DataTypeRepresentation(t, p).value)
         == Some(TypeText(t, RenderedParams(t, p).value))
  {
    TypeNamesPlain(t);
    RenderingShape(t, p);
    var ps := RenderedParams(t, p).value;
    if ps == [] {
      assert IndexOf(t, '(') == |t|;
    } else {
      DecodeParenthesised(t, ps);
    }
  }

  // ---------------------------------------------------------------------------
  // Column definition
  // ---------------------------------------------------------------------------

  const IdentityClause := "IDENTITY(1,1)"

  function NullClause(nullable: bool): string
  {
    if nullable then "NULL" else "NOT NULL"
  }

  /** `column_sql_representation`: the space-joined words of a column definition,
      or the error the type rendering raises. */
  function ColumnSqlRepresentation(name: string, t: string, identity: bool, nullable: bool,
                                   p: TypeParams): (r: Result<string>)
    ensures r.Fail? <==> DataTypeRepresentation(t, p).Fail?
  {
    var rep :- DataTypeRepresentation(t, p);
    Ok(Join(" ", [name, rep] + (if identity then [IdentityClause] else []) + [NullClause(nullable)]))
  }

  /** The words of a column definition, split on spaces. */
  function ColumnWords(def: string): seq<string>
  {
    Split(def, ' ')
  }

  /** For a column name without spaces, the words of the definition are the name,
      the type text, `IDENTITY(1,1)` exactly when the column is an identity column,
      and a nullability clause, `NULL` for a nullable column and `NOT NULL` for
      any other; so identity and nullability are read back from the word count and
      the third word. */
  lemma {:induction false} ColumnSqlWords(name: string, t: string, identity: bool, nullable: bool,
                                          p: TypeParams)
    requires ' ' !in name
    requires ColumnSqlRepresentation(name, t, identity, nullable, p).Ok?
    requires RenderedParams(t, p).Some? ==> AllPlain(RenderedParams(t, p).value)
    ensures var w := ColumnWords(ColumnSqlRepresentation(name, t, identity, nullable, p).value);
      && |w| >= 3
      && w[0] == name
      && DecodeTypeText(w[1]) == Some(TypeText(t, RenderedParams(t, p).value))
      && (w[2] == IdentityClause <==> identity)
      && |w| == 3 + (if identity then 1 else 0) + (if nullable then 0 else 1)
      && w[|w| - 1] == "NULL"
      && (!nullable ==> w[|w| - 2] == "NOT")
  {
    var rep := DataTypeRepresentation(t, p).value;
    DataTypeRoundTrip(t, p);
    RenderingNoSpace(t, p);
    DefinitionShape(name, rep, identity, nullable);
  }

  /** The words of a definition from a space-free name and type text. */
  lemma DefinitionShape(name: string, rep: string, identity: bool, nullable: bool)
    requires ' ' !in name && ' ' !in rep
    ensures var w := ColumnWords(Join(" ", [name, rep] + (if identity then [IdentityClause] else []) + [NullClause(nullable)]));
      && |w| == 3 + (if identity then 1 else 0) + (if nullable then 0 else 1)
      && w[0] == name && w[1] == rep
      && (w[2] == IdentityClause <==> identity)
      && w[|w| - 1] == "NULL"
      && (!nullable ==> w[|w| - 2] == "NOT")
  {
    var idc := if identity then [IdentityClause] else [];
    DefinitionWords(name, rep, identity, nullable);
    var w := [name, rep] + idc + (if nullable then ["NULL"] else ["NOT", "NULL"]);
    assert w[2] == if identity then IdentityClause else if nullable then "NULL" else "NOT";
  }

  /** A rendering with plain parameters holds no space. */
  lemma RenderingNoSpace(t: string, p: TypeParams)
    requires DataTypeRepresentation(t, p).Ok?
    requires RenderedParams(t, p).Some? ==> AllPlain(RenderedParams(t, p).value)
    ensures ' ' !in DataTypeRepresentation(t, p).value
  {
    TypeNamesPlain(t);
    RenderingShape(t, p);
    var ps := RenderedParams(t, p).value;
    if ps != [] {
      PlainTexts(ps);
      JoinNoChar(",", ParamTexts(ps), ' ');
    }
  }

  /** The words of a definition assembled from space-free parts. */
  lemma DefinitionWords(name: string, rep: string, identity: bool, nullable: bool)
    requires ' ' !in name && ' ' !in rep
    ensures Split(Join(" ", [name, rep] + (if identity then [IdentityClause] else [])
                             + [NullClause(nullable)]), ' ')
         == [name, rep] + (if identity then [IdentityClause] else [])
            + (if nullable then ["NULL"] else ["NOT", "NULL"])
  {
    var head := [name, rep] + (if identity then [IdentityClause] else []);
    var tail := if nullable then ["NULL"] else ["NOT", "NULL"];
    JoinAppend(" ", head, [NullClause(nullable)]);
    JoinAppend(" ", head, tail);
    assert Join(" ", ["NOT", "NULL"]) == "NOT NULL";
    assert Join(" ", [NullClause(nullable)]) == Join(" ", tail);
    assert forall i :: 0 <= i < |head + tail| ==> ' ' !in (head + tail)[i];
    SplitJoin(head + tail, ' ');
  }

  lemma {:induction false} JoinNoChar(sep: string, parts: seq<string>, c: char)
    requires c !in sep
    requires forall i :: 0 <= i < |parts| ==> c !in parts[i]
    ensures c !in Join(sep, parts)
    decreases |parts|
  {
    if |parts| > 1 {
      JoinNoChar(sep, parts[1..], c);
    }
  }

  lemma {:induction false} JoinAppend(sep: string, a: seq<string>, b: seq<string>)
    requires |a| >= 1 && |b| >= 1
    ensures Join(sep, a + b) == Join(sep, a) + sep + Join(sep, b)
    decreases |a|
  {
    if |a| == 1 {
      assert (a + b)[1..] == b;
    } else {
      assert (a + b)[1..] == a[1..] + b;
      JoinAppend(sep, a[1..], b);
    }
  }
}
