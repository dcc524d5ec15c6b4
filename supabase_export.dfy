/**
 * The pure pieces of server/export-for-supabase-clean.js, the script that
 * dumps the MySQL database as PostgreSQL statements: the column type
 * mapping, the rendering of a column definition and the escaping of values
 * into SQL literals. The connection, the queries and the file written are
 * left out.
 */
module SupabaseExport {
  import opened Wrappers
  import opened Text

  // ---------------------------------------------------------------------
  // convertType
  // ---------------------------------------------------------------------

  /** TYPE_MAP, in declaration order (the order `Object.entries` yields). */
  const TypeMap: seq<(string, string)> := [
    ("int", "INTEGER"), ("tinyint(1)", "BOOLEAN"), ("tinyint", "SMALLINT"), ("bigint", "BIGINT"),
    ("varchar", "VARCHAR"), ("text", "TEXT"), ("longtext", "TEXT"), ("mediumtext", "TEXT"),
    ("datetime", "TIMESTAMP"), ("timestamp", "TIMESTAMP"), ("double", "DOUBLE PRECISION"),
    ("float", "REAL"), ("decimal", "NUMERIC")
  ]

  /** The longest prefix of decimal digits. */
  function LeadingDigits(s: string): (d: string)
    ensures |d| <= |s| && d == s[..|d|] && AllDigits(d)
    ensures |d| == |s| || !IsDigit(s[|d|])
  {
    if s != [] && IsDigit(s[0]) then [s[0]] + LeadingDigits(s[1..]) else []
  }

  /** `/varchar\((\d+)\)/` matched at the start of `s`: the digits. */
  function VarcharAt(s: string): (r: Option<string>)
    ensures r.Some? ==> |r.value| >= 1 && AllDigits(r.value) && StartsWith(s, "varchar(" + r.value + ")")
  {
    if !StartsWith(s, "varchar(") then None
    else
      var d := LeadingDigits(s[8..]);
      if d != [] && 8 + |d| < |s| && s[8 + |d|] == ')' then
        assert s[..8 + |d| + 1] == "varchar(" + d + ")";
        Some(d)
      else None
  }

  /** `/decimal\((\d+),(\d+)\)/` matched at the start of `s`: precision and scale. */
  function DecimalAt(s: string): (r: Option<(string, string)>)
    ensures r.Some? ==> |r.value.0| >= 1 && |r.value.1| >= 1 && AllDigits(r.value.0) && AllDigits(r.value.1)
    ensures r.Some? ==> StartsWith(s, "decimal(" + r.value.0 + "," + r.value.1 + ")")
  {
    if !StartsWith(s, "decimal(") then None
    else
      var p := LeadingDigits(s[8..]);
      var i := 8 + |p|;
      if p != [] && i < |s| && s[i] == ',' then
        var q := LeadingDigits(s[i + 1..]);
        var j := i + 1 + |q|;
        if q != [] && j < |s| && s[j] == ')' then
          assert s[..j + 1] == "decimal(" + p + "," + q + ")";
          Some((p, q))
        else None
      else None
  }

  /** The leftmost match of `VarcharAt`. */
  function FindVarchar(s: string): (r: Option<string>)
    ensures r.Some? ==> exists i :: 0 <= i <= |s| && VarcharAt(s[i..]) == r
  {
    if VarcharAt(s).Some? then assert s[0..] == s; VarcharAt(s)
    else if s == [] then None
    else
      var r := FindVarchar(s[1..]);
      if r.Some? then
        ghost var i :| 0 <= i <= |s| - 1 && VarcharAt(s[1..][i..]) == r;
        assert s[1..][i..] == s[i + 1..];
        r
      else r
  }

  /** The leftmost match of `DecimalAt`. */
  function FindDecimal(s: string): (r: Option<(string, string)>)
    ensures r.Some? ==> exists i :: 0 <= i <= |s| && DecimalAt(s[i..]) == r
  {
    if DecimalAt(s).Some? then assert s[0..] == s; DecimalAt(s)
    else if s == [] then None
    else
      var r := FindDecimal(s[1..]);
      if r.Some? then
        ghost var i :| 0 <= i <= |s| - 1 && DecimalAt(s[1..][i..]) == r;
        assert s[1..][i..] == s[i + 1..];
        r
      else r
  }

  /** A run of digits followed by a non-digit is exactly the leading digits. */
  lemma LeadingDigitsOf(t: string, d: string)
    requires AllDigits(d) && |d| < |t| && t[..|d|] == d && !IsDigit(t[|d|])
    ensures LeadingDigits(t) == d
  {
  }

  /** `varchar(n)` at the start of the text is matched, with its digits. */
  lemma VarcharAtComplete(s: string, n: string)
    requires |n| >= 1 && AllDigits(n) && StartsWith(s, "varchar(" + n + ")")
    ensures VarcharAt(s) == Some(n)
  {
    var w := "varchar(" + n + ")";
    assert s[..8] == w[..8] == "varchar(";
    var t := s[8..];
    assert t[..|n|] == w[8..8 + |n|] == n;
    assert t[|n|] == w[8 + |n|] == ')';
    LeadingDigitsOf(t, n);
  }

  /** The pieces of a text that starts with `decimal(p,s)`. */
  lemma DecimalPieces(s: string, p: string, q: string)
    requires StartsWith(s, "decimal(" + p + "," + q + ")")
    ensures |s| > 9 + |p| + |q| && s[..8] == "decimal(" && s[8..8 + |p|] == p && s[8 + |p|] == ','
    ensures s[9 + |p|..9 + |p| + |q|] == q && s[9 + |p| + |q|] == ')'
  {
    var w1 := "decimal(" + p;
    var w2 := w1 + ",";
    var w3 := w2 + q;
    var w := w3 + ")";
    assert s[..|w3|] == w3 by { assert w[..|w3|] == w3; }
    assert s[..|w2|] == w2 by { assert w3[..|w2|] == w2; }
    assert s[..|w1|] == w1 by { assert w2[..|w1|] == w1; }
    assert w1[..8] == "decimal(" && w1[8..] == p;
    assert s[|w1|] == w2[|w1|];
    assert w3[|w2|..] == q;
    assert s[|w3|] == w[|w3|];
  }

  /** `decimal(p,s)` at the start of the text is matched, with both digit runs. */
  lemma DecimalAtComplete(s: string, p: string, q: string)
    requires |p| >= 1 && |q| >= 1 && AllDigits(p) && AllDigits(q)
    requires StartsWith(s, "decimal(" + p + "," + q + ")")
    ensures DecimalAt(s) == Some((p, q))
  {
    DecimalPieces(s, p, q);
    var i := 8 + |p|;
    var t := s[8..];
    assert t[..|p|] == s[8..i];
    LeadingDigitsOf(t, p);
    var u := s[i + 1..];
    assert u[..|q|] == s[i + 1..i + 1 + |q|];
    LeadingDigitsOf(u, q);
  }

  /** No result means no position of the text starts a `varchar(n)`. */
  lemma {:induction false} FindVarcharNone(s: string)
    requires FindVarchar(s).None?
    ensures forall i :: 0 <= i <= |s| ==> VarcharAt(s[i..]).None?
    decreases |s|
  {
    assert s[0..] == s;
    if s != [] {
      FindVarcharNone(s[1..]);
      forall i | 1 <= i <= |s| ensures VarcharAt(s[i..]).None? {
        assert s[i..] == s[1..][i - 1..];
      }
    }
  }

  /** The match reported is the leftmost one, as `String.prototype.match` reports it. */
  lemma {:induction false} FindVarcharLeftmost(s: string, i: nat)
    requires i <= |s| && VarcharAt(s[i..]).Some?
    requires forall j :: 0 <= j < i ==> VarcharAt(s[j..]).None?
    ensures FindVarchar(s) == VarcharAt(s[i..])
    decreases i
  {
    assert s[0..] == s;
    if i > 0 {
      forall j | 0 <= j < i - 1 ensures VarcharAt(s[1..][j..]).None? {
        assert s[1..][j..] == s[j + 1..];
      }
      assert s[1..][i - 1..] == s[i..];
      FindVarcharLeftmost(s[1..], i - 1);
    }
  }

  /** No result means no position of the text starts a `decimal(p,s)`. */
  lemma {:induction false} FindDecimalNone(s: string)
    requires FindDecimal(s).None?
    ensures forall i :: 0 <= i <= |s| ==> DecimalAt(s[i..]).None?
    decreases |s|
  {
    assert s[0..] == s;
    if s != [] {
      FindDecimalNone(s[1..]);
      forall i | 1 <= i <= |s| ensures DecimalAt(s[i..]).None? {
        assert s[i..] == s[1..][i - 1..];
      }
    }
  }

  /** The match reported is the leftmost one. */
  lemma {:induction false} FindDecimalLeftmost(s: string, i: nat)
    requires i <= |s| && DecimalAt(s[i..]).Some?
    requires forall j :: 0 <= j < i ==> DecimalAt(s[j..]).None?
    ensures FindDecimal(s) == DecimalAt(s[i..])
    decreases i
  {
    assert s[0..] == s;
    if i > 0 {
      forall j | 0 <= j < i - 1 ensures DecimalAt(s[1..][j..]).None? {
        assert s[1..][j..] == s[j + 1..];
      }
      assert s[1..][i - 1..] == s[i..];
      FindDecimalLeftmost(s[1..], i - 1);
    }
  }

  /** The first TYPE_MAP entry from position k on whose key starts `lower`, else TEXT. */
  function MapLookup(lower: string, k: nat): (pg: string)
    requires k <= |TypeMap|
    ensures (forall i :: k <= i < |TypeMap| ==> !StartsWith(lower, TypeMap[i].0)) ==> pg == "TEXT"
    decreases |TypeMap| - k
  {
    if k == |TypeMap| then "TEXT"
    else if StartsWith(lower, TypeMap[k].0) then TypeMap[k].1
    else MapLookup(lower, k + 1)
  }

  /** The entry found is the first whose key starts the type. */
  lemma {:induction false} MapLookupFirst(lower: string, k: nat, i: nat)
    requires k <= i < |TypeMap| && StartsWith(lower, TypeMap[i].0)
    requires forall j :: k <= j < i ==> !StartsWith(lower, TypeMap[j].0)
    ensures MapLookup(lower, k) == TypeMap[i].1
    decreases i - k
  {
    if k < i {
      MapLookupFirst(lower, k + 1, i);
    }
  }

  /** Only the varchar key maps to VARCHAR and only the decimal key to NUMERIC. */
  lemma {:induction false} MapLookupNames(lower: string, k: nat)
    requires k <= |TypeMap|
    ensures MapLookup(lower, k) == "VARCHAR" ==> StartsWith(lower, "varchar")
    ensures MapLookup(lower, k) == "NUMERIC" ==> StartsWith(lower, "decimal")
    decreases |TypeMap| - k
  {
    if k < |TypeMap| {
      if StartsWith(lower, TypeMap[k].0) {
        assert TypeMap[k].1 == "VARCHAR" ==> TypeMap[k].0 == "varchar";
        assert TypeMap[k].1 == "NUMERIC" ==> TypeMap[k].0 == "decimal";
      } else {
        MapLookupNames(lower, k + 1);
      }
    }
  }

  /**
   * convertType: a type mentioning varchar becomes VARCHAR with the length of
   * its first `varchar(n)`, or 255; then one mentioning decimal becomes
   * NUMERIC with the precision and scale of its first `decimal(p,s)`, or
   * bare NUMERIC; otherwise the first TYPE_MAP key the lower-cased type
   * starts with gives the type, and TEXT when none does. Case folding is
   * ASCII.
   */
  function ConvertType(mysqlType: string): (pg: string)
    ensures Contains(LowerStr(mysqlType), "varchar") ==> StartsWith(pg, "VARCHAR(")
    ensures !Contains(LowerStr(mysqlType), "varchar") && Contains(LowerStr(mysqlType), "decimal") ==> StartsWith(pg, "NUMERIC")
  {
    var lower := LowerStr(mysqlType);
    if Contains(lower, "varchar") then
      match FindVarchar(lower)
      case Some(n) => "VARCHAR(" + n + ")"
      case None => "VARCHAR(255)"
    else if Contains(lower, "decimal") then
      match FindDecimal(lower)
      case Some((p, s)) => "NUMERIC(" + p + "," + s + ")"
      case None => "NUMERIC"
    else MapLookup(lower, 0)
  }

  /** A type whose leftmost `varchar(n)` has the digits n becomes VARCHAR(n). */
  lemma ConvertTypeVarchar(mysqlType: string, i: nat)
    requires i <= |LowerStr(mysqlType)| && VarcharAt(LowerStr(mysqlType)[i..]).Some?
    requires forall j :: 0 <= j < i ==> VarcharAt(LowerStr(mysqlType)[j..]).None?
    ensures ConvertType(mysqlType) == "VARCHAR(" + VarcharAt(LowerStr(mysqlType)[i..]).value + ")"
  {
    VarcharMentioned(LowerStr(mysqlType), i);
    FindVarcharLeftmost(LowerStr(mysqlType), i);
  }

  /** A type that mentions varchar but has no `varchar(n)` anywhere becomes VARCHAR(255). */
  lemma ConvertTypeVarcharNoLength(mysqlType: string)
    requires Contains(LowerStr(mysqlType), "varchar")
    requires forall i :: 0 <= i <= |LowerStr(mysqlType)| ==> VarcharAt(LowerStr(mysqlType)[i..]).None?
    ensures ConvertType(mysqlType) == "VARCHAR(255)"
  {
  }

  /** A type without varchar whose leftmost `decimal(p,s)` has the digits p and s becomes NUMERIC(p,s). */
  lemma ConvertTypeDecimal(mysqlType: string, i: nat)
    requires !Contains(LowerStr(mysqlType), "varchar")
    requires i <= |LowerStr(mysqlType)| && DecimalAt(LowerStr(mysqlType)[i..]).Some?
    requires forall j :: 0 <= j < i ==> DecimalAt(LowerStr(mysqlType)[j..]).None?
    ensures var m := DecimalAt(LowerStr(mysqlType)[i..]).value;
            ConvertType(mysqlType) == "NUMERIC(" + m.0 + "," + m.1 + ")"
  {
    DecimalMentioned(LowerStr(mysqlType), i);
    FindDecimalLeftmost(LowerStr(mysqlType), i);
  }

  /** A text with a `decimal(p,s)` match mentions decimal. */
  lemma DecimalMentioned(lower: string, i: nat)
    requires i <= |lower| && DecimalAt(lower[i..]).Some?
    ensures Contains(lower, "decimal")
  {
    assert StartsWith(lower[i..], "decimal(");
    PrefixContained(lower, "decimal(", i, 7);
    assert "decimal("[..7] == "decimal";
  }

  /** A text with a `varchar(n)` match mentions varchar. */
  lemma VarcharMentioned(lower: string, i: nat)
    requires i <= |lower| && VarcharAt(lower[i..]).Some?
    ensures Contains(lower, "varchar")
  {
    assert StartsWith(lower[i..], "varchar(");
    PrefixContained(lower, "varchar(", i, 7);
    assert "varchar("[..7] == "varchar";
  }

  /** A text that has `w` at position i contains every prefix of `w`. */
  lemma PrefixContained(s: string, w: string, i: nat, k: nat)
    requires i <= |s| && StartsWith(s[i..], w) && k <= |w|
    ensures Contains(s, w[..k])
  {
    assert s[i..i + k] == s[i..][..k] == w[..k];
    ContainsAt(s, w[..k], i);
  }

  /** The varchar branch always carries a length, so the bare VARCHAR of TYPE_MAP is never produced. */
  lemma ConvertTypeNeverBareVarchar(mysqlType: string)
    ensures ConvertType(mysqlType) != "VARCHAR"
  {
    var lower := LowerStr(mysqlType);
    if !Contains(lower, "varchar") && !Contains(lower, "decimal") {
      assert !StartsWith(lower, "varchar");
      MapLookupNames(lower, 0);
    } else if Contains(lower, "varchar") {
      match FindVarchar(lower)
      case Some(n) => assert |"VARCHAR(" + n + ")"| > 7;
      case None =>
    }
  }

  /** A bare NUMERIC comes only from a decimal type without `(p,s)`. */
  lemma ConvertTypeBareNumeric(mysqlType: string)
    ensures ConvertType(mysqlType) == "NUMERIC" ==>
            Contains(LowerStr(mysqlType), "decimal") && !Contains(LowerStr(mysqlType), "varchar")
  {
    var lower := LowerStr(mysqlType);
    if Contains(lower, "varchar") {
      match FindVarchar(lower)
      case Some(n) => assert ("VARCHAR(" + n + ")")[0] == 'V';
      case None =>
    } else if !Contains(lower, "decimal") {
      assert !StartsWith(lower, "decimal");
      MapLookupNames(lower, 0);
    }
  }

  /** A lower-case type with neither a 'v' nor a 'd' mentions neither varchar nor decimal. */
  lemma NoTypeKeyword(t: string)
    requires 'v' !in t && 'd' !in t && forall i :: 0 <= i < |t| ==> !('A' <= t[i] <= 'Z')
    ensures LowerStr(t) == t && !Contains(t, "varchar") && !Contains(t, "decimal")
  {
    if Contains(t, "varchar") { ContainsHead(t, "varchar"); }
    if Contains(t, "decimal") { ContainsHead(t, "decimal"); }
  }

  lemma SelfPrefix(s: string)
    ensures StartsWith(s, s)
  {
    assert s[..|s|] == s;
  }

  /** The entries are tried in order: tinyint(1) is BOOLEAN, before the tinyint prefix is tried. */
  lemma ConvertTypeBoolean()
    ensures ConvertType("tinyint(1)") == "BOOLEAN"
  {
    assert TypeMap[1].0 == "tinyint(1)";
    assert !StartsWith("tinyint(1)", TypeMap[0].0) by { assert "tinyint(1)"[0] != TypeMap[0].0[0]; }
    SelfPrefix("tinyint(1)");
    NoTypeKeyword("tinyint(1)");
  }

  lemma ConvertTypeSmallint()
    ensures ConvertType("tinyint") == "SMALLINT"
  {
    assert TypeMap[2].0 == "tinyint";
    assert !StartsWith("tinyint", TypeMap[0].0) by { assert "tinyint"[0] != TypeMap[0].0[0]; }
    assert |TypeMap[1].0| > |"tinyint"|;
    SelfPrefix("tinyint");
    NoTypeKeyword("tinyint");
  }

  /** A type no TYPE_MAP key starts is TEXT. */
  lemma ConvertTypeUnknown()
    ensures ConvertType("json") == "TEXT"
  {
    NoTypeKeyword("json");
    forall i | 0 <= i < |TypeMap| ensures !StartsWith("json", TypeMap[i].0) {
      assert TypeMap[i].0[0] != 'j';
    }
  }

  /** A varchar without a length gets 255. */
  lemma ConvertTypeVarcharDefault()
    ensures ConvertType("varchar") == "VARCHAR(255)"
  {
    assert LowerStr("varchar") == "varchar";
    assert StartsWith("varchar", "varchar");
    assert FindVarchar("varchar") == None;
  }

  // ---------------------------------------------------------------------
  // escapeValue
  // ---------------------------------------------------------------------

  /**
   * A value read from MySQL. Numbers and dates arrive with their JavaScript
   * renderings (`String(n)` and `toISOString()`), which are foreign here.
   */
  datatype Value =
    | Null
    | Bool(b: bool)
    | Number(text: string)
    | Date(iso: string)
    | Str(s: string)
    | Bytes(bytes: seq<int>)
    | Other(text: string)

  /** `s.replace(/c/g, c + c)`: every occurrence of `c` doubled. */
  function Double(s: string, c: char): (r: string)
    ensures |r| == |s| + CountChar(c, s)
  {
    if s == [] then [] else (if s[0] == c then [c, c] else [s[0]]) + Double(s[1..], c)
  }

  /** Reads doubled `c`s back as one. */
  function Undouble(s: string, c: char): string
    decreases |s|
  {
    if |s| >= 2 && s[0] == c && s[1] == c then [c] + Undouble(s[2..], c)
    else if s == [] then []
    else [s[0]] + Undouble(s[1..], c)
  }

  lemma {:induction false} UndoubleDouble(s: string, c: char)
    ensures Undouble(Double(s, c), c) == s
  {
    if s != [] {
      UndoubleDouble(s[1..], c);
      var d := Double(s, c);
      if s[0] == c {
        assert d[2..] == Double(s[1..], c);
      } else {
        assert d[1..] == Double(s[1..], c);
      }
    }
  }

  /** Doubling one character leaves the count of another alone. */
  lemma {:induction false} DoubleKeepsCount(s: string, c: char, e: char)
    requires c != e
    ensures CountChar(e, Double(s, c)) == CountChar(e, s)
  {
    if s != [] {
      DoubleKeepsCount(s[1..], c, e);
      var head := if s[0] == c then [c, c] else [s[0]];
      CountCharAppend(e, head, Double(s[1..], c));
    }
  }

  /**
   * The body of a string literal: backslashes doubled first, then single
   * quotes. It grows by one character per backslash and per quote, and
   * un-doubling quotes, then backslashes, gives the string back.
   */
  function EscapeString(s: string): (r: string)
    ensures |r| == |s| + CountChar('\\', s) + CountChar('\'', s)
    ensures Undouble(Undouble(r, '\''), '\\') == s
  {
    DoubleKeepsCount(s, '\\', '\'');
    UndoubleDouble(Double(s, '\\'), '\'');
    UndoubleDouble(s, '\\');
    Double(Double(s, '\\'), '\'')
  }

  /** `toISOString().slice(0, 19).replace("T", " ")`: at most 19 characters, only a T changed. */
  function DateText(iso: string): (r: string)
    ensures |r| == (if |iso| < 19 then |iso| else 19)
    ensures forall i :: 0 <= i < |r| && iso[i] != 'T' ==> r[i] == iso[i]
  {
    var head := if |iso| < 19 then iso else iso[..19];
    ReplaceFirst(head, 'T', ' ')
  }

  /** `replace` with a string pattern: the first occurrence only. */
  function ReplaceFirst(s: string, c: char, d: char): (r: string)
    ensures |r| == |s|
    ensures forall i :: 0 <= i < |s| && s[i] != c ==> r[i] == s[i]
  {
    if s == [] then [] else if s[0] == c then [d] + s[1..] else [s[0]] + ReplaceFirst(s[1..], c, d)
  }

  /** Two lower-case hexadecimal digits. */
  function HexDigit(d: int): (c: char)
    requires 0 <= d < 16
  {
    if d < 10 then ('0' as int + d) as char else ('a' as int + d - 10) as char
  }

  function HexValue(c: char): int {
    if '0' <= c <= '9' then c as int - '0' as int
    else if 'a' <= c <= 'f' then c as int - 'a' as int + 10
    else 0
  }

  predicate IsByte(b: int) { 0 <= b < 256 }

  /** `buffer.toString("hex")`. */
  function Hex(bytes: seq<int>): (r: string)
    requires forall i :: 0 <= i < |bytes| ==> IsByte(bytes[i])
    ensures |r| == 2 * |bytes|
  {
    if bytes == [] then []
    else
      var b := bytes[0];
      assert IsByte(b);
      [HexDigit(b / 16), HexDigit(b % 16)] + Hex(bytes[1..])
  }

  function Unhex(s: string): seq<int>
    decreases |s|
  {
    if |s| < 2 then [] else [HexValue(s[0]) * 16 + HexValue(s[1])] + Unhex(s[2..])
  }

  lemma {:induction false} HexRoundTrip(bytes: seq<int>)
    requires forall i :: 0 <= i < |bytes| ==> IsByte(bytes[i])
    ensures Unhex(Hex(bytes)) == bytes
  {
    if bytes != [] {
      var h := Hex(bytes);
      assert h[2..] == Hex(bytes[1..]);
      HexRoundTrip(bytes[1..]);
    }
  }

  /**
   * escapeValue: the SQL text of one value. Everything but NULL, booleans
   * and numbers is quoted, and a string's quoted body reads back as the
   * string.
   */
  function Escape(v: Value): (r: string)
    requires v.Bytes? ==> forall i :: 0 <= i < |v.bytes| ==> IsByte(v.bytes[i])
    ensures !(v.Null? || v.Bool? || v.Number?) ==> |r| >= 2 && r[0] == '\'' && r[|r| - 1] == '\''
    ensures v.Str? ==> Undouble(Undouble(r[1..|r| - 1], '\''), '\\') == v.s
  {
    match v
    case Null => "NULL"
    case Bool(b) => if b then "TRUE" else "FALSE"
    case Number(text) => text
    case Date(iso) => "'" + DateText(iso) + "'"
    case Str(s) => "'" + EscapeString(s) + "'"
    case Bytes(bytes) => "'\\x" + Hex(bytes) + "'"
    case Other(text) => "'" + text + "'"
  }

  /** NULL and booleans become SQL keywords, and a number is written unquoted. */
  lemma EscapeScalars(b: bool, text: string)
    ensures Escape(Null) == "NULL"
    ensures Escape(Bool(b)) == (if b then "TRUE" else "FALSE")
    ensures Escape(Number(text)) == text
  {
  }

  /** A well-formed ISO timestamp becomes a quoted `YYYY-MM-DD HH:MM:SS`: its first 19 characters with a space for the T. */
  lemma DateLiteral(iso: string)
    requires |iso| >= 19 && iso[10] == 'T' && forall i :: 0 <= i < 10 ==> iso[i] != 'T'
    ensures Escape(Date(iso)) == "'" + (iso[..10] + " " + iso[11..19]) + "'"
  {
    DateTextAt(iso);
  }

  lemma DateTextAt(iso: string)
    requires |iso| >= 19 && iso[10] == 'T' && forall i :: 0 <= i < 10 ==> iso[i] != 'T'
    ensures DateText(iso) == iso[..10] + " " + iso[11..19]
  {
    var head := iso[..19];
    ReplaceFirstAt(head, 'T', ' ', 10);
    assert head[..10] == iso[..10] && head[11..] == iso[11..19];
  }

  /** Replacing the first occurrence, at k, changes that character and nothing else. */
  lemma {:induction false} ReplaceFirstAt(s: string, c: char, d: char, k: nat)
    requires k < |s| && s[k] == c && forall i :: 0 <= i < k ==> s[i] != c
    ensures ReplaceFirst(s, c, d) == s[..k] + [d] + s[k + 1..]
  {
    if k > 0 {
      var t := s[1..];
      assert forall i :: 0 <= i < k - 1 ==> t[i] != c by {
        forall i | 0 <= i < k - 1 ensures t[i] != c {
          assert t[i] == s[i + 1];
        }
      }
      ReplaceFirstAt(t, c, d, k - 1);
      ConsSplit(s, k, d);
    }
  }

  /** Putting the head back in front of a split tail. */
  lemma ConsSplit(s: string, k: nat, d: char)
    requires 0 < k < |s|
    ensures [s[0]] + (s[1..][..k - 1] + [d] + s[1..][k..]) == s[..k] + [d] + s[k + 1..]
  {
    assert s[1..][..k - 1] == s[1..k];
    assert s[1..][k..] == s[k + 1..];
    assert s[..k] == [s[0]] + s[1..k];
  }

  /** A byte string becomes a quoted `\x` and two hex digits per byte, which read back as the bytes. */
  lemma ByteaLiteral(bytes: seq<int>)
    requires forall i :: 0 <= i < |bytes| ==> IsByte(bytes[i])
    ensures var r := Escape(Bytes(bytes));
            |r| == 2 * |bytes| + 4 && r[..3] == "'\\x" && r[|r| - 1] == '\''
            && Unhex(r[3..|r| - 1]) == bytes
  {
    var r := Escape(Bytes(bytes));
    assert r[3..|r| - 1] == Hex(bytes);
    HexRoundTrip(bytes);
  }

  // ---------------------------------------------------------------------
  // Column definitions
  // ---------------------------------------------------------------------

  /**
   * One row of INFORMATION_SCHEMA.COLUMNS. The numeric attributes are 0
   * when NULL, as JavaScript's `||` reads them; the default is `None` for
   * NULL.
   */
  datatype Column = Column(name: string, dataType: string, isNullable: string, columnDefault: Option<string>,
                           extra: string, charMaxLength: nat, numericPrecision: nat, numericScale: nat)

  function IsHexDigit(c: char): bool { '0' <= c <= '9' || 'a' <= c <= 'f' || 'A' <= c <= 'F' }

  predicate AllOf(s: string, kind: char) {
    forall i :: 0 <= i < |s| ==>
      if kind == 'x' then IsHexDigit(s[i]) else if kind == 'o' then '0' <= s[i] <= '7' else s[i] == '0' || s[i] == '1'
  }

  /** An exponent part: `e` or `E`, an optional sign, at least one digit, and nothing after. */
  predicate ExponentRest(s: string) {
    |s| >= 2 && (s[0] == 'e' || s[0] == 'E')
    && var t := if s[1] == '+' || s[1] == '-' then s[2..] else s[1..];
       t != [] && AllDigits(t)
  }

  /** StrUnsignedDecimalLiteral of the JavaScript string-to-number grammar. */
  predicate UnsignedDecimal(u: string) {
    u == "Infinity" ||
    var a := LeadingDigits(u);
    var rest := u[|a|..];
    if rest != [] && rest[0] == '.' then
      var b := LeadingDigits(rest[1..]);
      var tail := rest[1 + |b|..];
      |a| + |b| > 0 && (tail == [] || ExponentRest(tail))
    else
      |a| > 0 && (rest == [] || ExponentRest(rest))
  }

  /** `!isNaN(s)`: the trimmed string is empty, a signed decimal literal or Infinity, or a 0x/0o/0b literal. */
  predicate NumericText(s: string) {
    var t := Trim(s);
    t == []
    || (|t| > 2 && t[0] == '0' && (t[1] == 'x' || t[1] == 'X') && AllOf(t[2..], 'x'))
    || (|t| > 2 && t[0] == '0' && (t[1] == 'o' || t[1] == 'O') && AllOf(t[2..], 'o'))
    || (|t| > 2 && t[0] == '0' && (t[1] == 'b' || t[1] == 'B') && AllOf(t[2..], 'b'))
    || UnsignedDecimal(if t[0] == '+' || t[0] == '-' then t[1..] else t)
  }

  /** The DEFAULT clause of a column that is not auto-increment. */
  function DefaultClause(d: Option<string>): (r: string)
    ensures d.None? <==> r == ""
  {
    match d
    case None => ""
    case Some(v) =>
      if v == "CURRENT_TIMESTAMP" || v == "current_timestamp()" then " DEFAULT CURRENT_TIMESTAMP"
      else if NumericText(v) then " DEFAULT " + v
      else " DEFAULT '" + v + "'"
  }

  /**
   * The column's PostgreSQL type: convertType, then the length and precision
   * overrides of the export loop. Only the precision override can change
   * convertType's answer, and only when it is a bare NUMERIC.
   */
  function ColumnType(col: Column): (r: string)
    ensures r == ConvertType(col.dataType) || (ConvertType(col.dataType) == "NUMERIC" && col.numericPrecision != 0)
    ensures col.numericPrecision == 0 ==> r == ConvertType(col.dataType)
    ensures ConvertType(col.dataType) == "NUMERIC" && col.numericPrecision != 0 ==>
      r == "NUMERIC(" + NatToString(col.numericPrecision) + "," + NatToString(col.numericScale) + ")"
  {
    ConvertTypeNeverBareVarchar(col.dataType);
    var pgType := ConvertType(col.dataType);
    var pgType := if col.charMaxLength != 0 && pgType == "VARCHAR" then "VARCHAR(" + NatToString(col.charMaxLength) + ")" else pgType;
    if col.numericPrecision != 0 && pgType == "NUMERIC"
    then "NUMERIC(" + NatToString(col.numericPrecision) + "," + NatToString(col.numericScale) + ")"
    else pgType
  }

  /** The length override never fires: CHARACTER_MAXIMUM_LENGTH has no effect on the type. */
  lemma ColumnTypeIgnoresLength(col: Column)
    ensures ColumnType(col) == ColumnType(col.(charMaxLength := 0))
  {
    ConvertTypeNeverBareVarchar(col.dataType);
  }

  predicate AutoIncrement(col: Column) {
    Contains(LowerStr(col.extra), "auto_increment")
  }

  /**
   * One entry of `columnDefs`: the quoted column name, then SERIAL PRIMARY
   * KEY and nothing more for an auto-increment column; otherwise the
   * column's type, NOT NULL exactly when IS_NULLABLE is "NO", and the
   * DEFAULT clause.
   */
  function ColumnDefinition(col: Column): (r: string)
    ensures AutoIncrement(col) ==> r == "  \"" + col.name + "\" SERIAL PRIMARY KEY"
    ensures !AutoIncrement(col) ==>
      r == "  \"" + col.name + "\" " + ColumnType(col) + (if col.isNullable == "NO" then " NOT NULL" else "")
           + DefaultClause(col.columnDefault)
  {
    var def := "  \"" + col.name + "\" ";
    if AutoIncrement(col) then def + "SERIAL PRIMARY KEY"
    else def + ColumnType(col) + (if col.isNullable == "NO" then " NOT NULL" else "") + DefaultClause(col.columnDefault)
  }

  /** The body of the column loop: the definition of one column, and whether it is the serial key. */
  method DefineColumn(col: Column) returns (def: string, serial: bool)
    ensures def == ColumnDefinition(col)
    ensures serial <==> AutoIncrement(col)
  {
    def := "  \"" + col.name + "\" ";
    var pgType := ColumnType(col);
    serial := false;
    if AutoIncrement(col) {
      def := def + "SERIAL PRIMARY KEY";
      serial := true;
    } else {
      def := def + pgType;
      if col.isNullable == "NO" {
        def := def + " NOT NULL";
      } else {
        assert def + "" == def;
      }
      def := def + DefaultClause(col.columnDefault);
    }
  }

  /** `columnDefs`: the definitions of the columns, in order. */
  function Definitions(columns: seq<Column>): (defs: seq<string>)
    ensures |defs| == |columns|
  {
    if columns == [] then [] else Definitions(columns[..|columns| - 1]) + [ColumnDefinition(columns[|columns| - 1])]
  }

  /** Entry i of the definitions is the definition of column i. */
  lemma {:induction false} DefinitionsAt(columns: seq<Column>, i: nat)
    requires i < |columns|
    ensures Definitions(columns)[i] == ColumnDefinition(columns[i])
  {
    var init := columns[..|columns| - 1];
    if i < |init| {
      DefinitionsAt(init, i);
    }
  }

  /** Some column, read from the last one back, is auto-increment. */
  predicate AnySerial(columns: seq<Column>) {
    columns != [] && (AnySerial(columns[..|columns| - 1]) || AutoIncrement(columns[|columns| - 1]))
  }

  /** AnySerial holds exactly when some column is auto-increment. */
  lemma {:induction false} AnySerialSome(columns: seq<Column>)
    ensures AnySerial(columns) <==> exists i :: 0 <= i < |columns| && AutoIncrement(columns[i])
  {
    if columns != [] {
      var init := columns[..|columns| - 1];
      AnySerialSome(init);
      assert forall i :: 0 <= i < |init| ==> init[i] == columns[i];
    }
  }

  /** One more column extends both the definitions and the auto-increment test by that column. */
  lemma PrefixStep(columns: seq<Column>, k: nat)
    requires k < |columns|
    ensures Definitions(columns[..k + 1]) == Definitions(columns[..k]) + [ColumnDefinition(columns[k])]
    ensures AnySerial(columns[..k + 1]) == (AnySerial(columns[..k]) || AutoIncrement(columns[k]))
  {
    assert columns[..k + 1][..k] == columns[..k];
  }

  /** The column loop: one definition per column in order, and whether any column is auto-increment. */
  method BuildColumnDefs(columns: seq<Column>) returns (defs: seq<string>, hasPrimaryKey: bool)
    ensures defs == Definitions(columns)
    ensures hasPrimaryKey == AnySerial(columns)
  {
    defs, hasPrimaryKey := [], false;
    var k := 0;
    while k < |columns|
      invariant 0 <= k <= |columns|
      invariant defs == Definitions(columns[..k])
      invariant hasPrimaryKey == AnySerial(columns[..k])
    {
      var def, serial := DefineColumn(columns[k]);
      PrefixStep(columns, k);
      hasPrimaryKey := hasPrimaryKey || serial;
      defs := defs + [def];
      k := k + 1;
    }
    assert columns[..k] == columns;
  }

  /** The CREATE TABLE statement of one table: its quoted name, then the definitions in parentheses. */
  function CreateTable(table: string, defs: seq<string>): (r: string)
    ensures StartsWith(r, "CREATE TABLE \"" + table + "\" (\n")
    ensures |r| >= 5 && r[|r| - 5..] == "\n);\n\n"
  {
    "CREATE TABLE \"" + table + "\" (\n" + Join(defs, ",\n") + "\n);\n\n"
  }

  /** The INSERT statement of one row, its values escaped in column order. */
  function InsertStatement(table: string, columnNames: seq<string>, row: seq<Value>): (r: string)
    requires forall i :: 0 <= i < |row| ==> row[i].Bytes? ==> forall j :: 0 <= j < |row[i].bytes| ==> IsByte(row[i].bytes[j])
    ensures StartsWith(r, "INSERT INTO \"" + table + "\" (")
    ensures |r| >= 3 && r[|r| - 3..] == ");\n"
  {
    var names := seq(|columnNames|, i requires 0 <= i < |columnNames| => "\"" + columnNames[i] + "\"");
    var values := seq(|row|, i requires 0 <= i < |row| => Escape(row[i]));
    "INSERT INTO \"" + table + "\" (" + Join(names, ", ") + ") VALUES (" + Join(values, ", ") + ");\n"
  }

  /** An auto-increment column is SERIAL PRIMARY KEY whatever its type, nullability and default. */
  lemma SerialIgnoresAttributes(col: Column, dataType: string, isNullable: string, columnDefault: Option<string>)
    requires AutoIncrement(col)
    ensures ColumnDefinition(col)
         == ColumnDefinition(col.(dataType := dataType, isNullable := isNullable, columnDefault := columnDefault))
  {
  }

  /** A timestamp default becomes the PostgreSQL keyword. */
  lemma DefaultTimestamp()
    ensures DefaultClause(Some("current_timestamp()")) == " DEFAULT CURRENT_TIMESTAMP"
    ensures DefaultClause(Some("CURRENT_TIMESTAMP")) == " DEFAULT CURRENT_TIMESTAMP"
  {
  }

  /** Text whose ends are not white space is its own trim. */
  lemma TrimUnspaced(s: string)
    requires s != [] && !IsJsSpace(s[0]) && !IsJsSpace(s[|s| - 1])
    ensures Trim(s) == s
  {
  }

  /** A run of digits reads as a whole. */
  lemma {:induction false} LeadingDigitsAll(s: string)
    requires AllDigits(s)
    ensures LeadingDigits(s) == s
  {
    if s != [] {
      LeadingDigitsAll(s[1..]);
    }
  }

  /** A default made of digits is a number to JavaScript, so it stays unquoted. */
  lemma DefaultDigits(v: string)
    requires v != [] && AllDigits(v)
    ensures DefaultClause(Some(v)) == " DEFAULT " + v
  {
    assert v != "CURRENT_TIMESTAMP" && v != "current_timestamp()" by { assert v[0] != 'C' && v[0] != 'c'; }
    assert NumericText(v) by {
      TrimUnspaced(v);
      assert v[0] != '+' && v[0] != '-';
      LeadingDigitsAll(v);
      assert v[|v|..] == [];
      assert UnsignedDecimal(v);
    }
  }

  /** An empty default is a number to JavaScript (`!isNaN("")`), so nothing follows DEFAULT. */
  lemma DefaultEmpty()
    ensures DefaultClause(Some("")) == " DEFAULT "
  {
  }

  /** A default opening with a lower-case letter is not a number to JavaScript, so it is quoted. */
  lemma DefaultWord(v: string)
    requires v != [] && 'a' <= v[0] <= 'z' && v != "current_timestamp()" && !IsJsSpace(v[|v| - 1])
    ensures DefaultClause(Some(v)) == " DEFAULT '" + v + "'"
  {
    TrimUnspaced(v);
    assert LeadingDigits(v) == [];
    assert v != "Infinity" by { assert v[0] != 'I'; }
    assert v != "CURRENT_TIMESTAMP" by { assert v[0] != 'C'; }
    assert !NumericText(v);
  }
}
