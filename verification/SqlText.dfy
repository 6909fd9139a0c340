/** The SQL the database browser prints, and the engines' lexers reading it back (api/db_browser.rs). */
module SqlText {
  import opened Text

  datatype Engine = Postgres | Mysql

  // ----- quoting --------------------------------------------------------------------------

  /** `s.replace(c, cc)`: every `c` twice. */
  function Doubled(s: string, c: char): string {
    if s == "" then "" else (if s[0] == c then [c, c] else [s[0]]) + Doubled(s[1..], c)
  }

  function IdentQuote(e: Engine): char { if e.Postgres? then '"' else '`' }

  function QuoteIdent(e: Engine, s: string): string {
    [IdentQuote(e)] + Doubled(s, IdentQuote(e)) + [IdentQuote(e)]
  }

  /** Two passes: quotes first, then for MySQL backslashes. */
  function LiteralBody(e: Engine, s: string): string {
    var out := Doubled(s, '\'');
    if e.Mysql? then Doubled(out, '\\') else out
  }

  function QuoteLiteral(e: Engine, s: string): string { "'" + LiteralBody(e, s) + "'" }

  // ----- the engines' lexers --------------------------------------------------------------

  /** The text a token stands for, and what follows it. */
  datatype Token = Token(text: string, rest: string)

  function Prepend(c: string, t: Option<Token>): Option<Token> {
    if t.Some? then Some(Token(c + t.value.text, t.value.rest)) else None
  }

  /** Behind an opening quote: a doubled quote is one quote, a single one ends the token. */
  function ScanQuoted(s: string, q: char): Option<Token> {
    if s == "" then None
    else if s[0] != q then Prepend([s[0]], ScanQuoted(s[1..], q))
    else if |s| > 1 && s[1] == q then Prepend([q], ScanQuoted(s[2..], q))
    else Some(Token("", s[1..]))
  }

  /** What MySQL reads for a backslash and the character behind it. */
  function Unescape(c: char): string {
    match c
    case '0' => "\0"
    case 'b' => "\U{8}"
    case 'n' => "\n"
    case 'r' => "\r"
    case 't' => "\t"
    case 'Z' => "\U{1A}"
    case '%' => "\\%"
    case '_' => "\\_"
    case _ => [c]
  }

  /** Behind the opening quote of a MySQL string literal, backslash escapes on. */
  function ScanMysql(s: string): Option<Token> {
    if s == "" then None
    else if s[0] == '\\' then
      if |s| == 1 then None else Prepend(Unescape(s[1]), ScanMysql(s[2..]))
    else if s[0] != '\'' then Prepend([s[0]], ScanMysql(s[1..]))
    else if |s| > 1 && s[1] == '\'' then Prepend("'", ScanMysql(s[2..]))
    else Some(Token("", s[1..]))
  }

  /**
   * Behind a closing quote Postgres goes on with the same literal when whitespace and line comments
   * that hold a newline lead to another quote; the result is what stands behind that quote.
   */
  function Resumed(s: string, newline: bool): (r: Option<string>)
    ensures r.Some? ==> |r.value| < |s|
    decreases |s|
  {
    if s == "" then None
    else if s[0] == '\'' then if newline then Some(s[1..]) else None
    else if s[0] == '\n' || s[0] == '\r' then Resumed(s[1..], true)
    else if s[0] == ' ' || s[0] == '\t' || s[0] == '\U{B}' || s[0] == '\U{C}' then Resumed(s[1..], newline)
    else if IsLineComment(s) then Resumed(s[LineEnd(s)..], newline)
    else None
  }

  /** Index of the newline or carriage return that ends the first line, or the length. */
  function LineEnd(s: string): (n: nat)
    ensures n <= |s|
    ensures s != "" && s[0] != '\n' && s[0] != '\r' ==> n > 0
  {
    if s == "" || s[0] == '\n' || s[0] == '\r' then 0 else 1 + LineEnd(s[1..])
  }

  /** Behind the opening quote of a Postgres string literal. */
  function ScanPostgres(s: string): Option<Token>
    decreases |s|
  {
    if s == "" then None
    else if s[0] != '\'' then Prepend([s[0]], ScanPostgres(s[1..]))
    else if |s| > 1 && s[1] == '\'' then Prepend("'", ScanPostgres(s[2..]))
    else if Resumed(s[1..], false).Some? then ScanPostgres(Resumed(s[1..], false).value)
    else Some(Token("", s[1..]))
  }

  function LexLiteral(e: Engine, s: string): Option<Token> {
    if s == "" || s[0] != '\'' then None
    else if e.Postgres? then ScanPostgres(s[1..]) else ScanMysql(s[1..])
  }

  /** What may not follow a literal: a quote, or for Postgres a separator that leads to one. */
  predicate Continues(e: Engine, k: string) { Begins(k, '\'') || (e.Postgres? && Resumed(k, false).Some?) }

  function Utf8Size(c: char): nat {
    if c < '\U{80}' then 1 else if c < '\U{800}' then 2 else if c < '\U{10000}' then 3 else 4
  }

  function NameSize(s: string): nat { if s == "" then 0 else Utf8Size(s[0]) + NameSize(s[1..]) }

  /** The longest front of `s` that takes at most `n` bytes. */
  function Clip(s: string, n: nat): string {
    if s == "" || Utf8Size(s[0]) > n then "" else [s[0]] + Clip(s[1..], n - Utf8Size(s[0]))
  }

  /** Postgres cuts longer names. */
  const MAX_NAME_BYTES := 63

  /** Postgres has no empty names. */
  predicate IsName(e: Engine, s: string) { e.Postgres? ==> s != "" }

  function KeptName(e: Engine, s: string): string { if e.Postgres? then Clip(s, MAX_NAME_BYTES) else s }

  predicate NameFits(e: Engine, s: string) { e.Postgres? ==> 0 < NameSize(s) <= MAX_NAME_BYTES }

  lemma {:induction false} ClipKeepsIff(s: string, n: nat)
    ensures Clip(s, n) == s <==> NameSize(s) <= n
  {
    if s != "" && Utf8Size(s[0]) <= n {
      ClipKeepsIff(s[1..], n - Utf8Size(s[0]));
      assert Clip(s, n)[1..] == Clip(s[1..], n - Utf8Size(s[0]));
      assert [s[0]] + s[1..] == s;
    }
  }

  lemma NameFitsIff(e: Engine, s: string)
    ensures NameFits(e, s) <==> IsName(e, s) && KeptName(e, s) == s
  {
    ClipKeepsIff(s, MAX_NAME_BYTES);
  }

  /** Double quotes are standard SQL; backticks are MySQL's. */
  function LexIdent(e: Engine, s: string): Option<Token> {
    var q := match e case Postgres => '"' case Mysql => '`';
    if s == "" || s[0] != q then None
    else
      match ScanQuoted(s[1..], q)
      case None => None
      case Some(t) => if IsName(e, t.text) then Some(Token(KeptName(e, t.text), t.rest)) else None
  }

  predicate Begins(s: string, c: char) { s != "" && s[0] == c }

  lemma {:induction false} ScanDoubled(s: string, q: char, k: string)
    requires !Begins(k, q)
    ensures ScanQuoted(Doubled(s, q) + [q] + k, q) == Some(Token(s, k))
  {
    var h := Doubled(s, q) + [q] + k;
    if s == "" {
      assert h == [q] + k && h[1..] == k;
    } else {
      var tail := Doubled(s[1..], q) + [q] + k;
      ScanDoubled(s[1..], q, k);
      assert [s[0]] + s[1..] == s;
      if s[0] == q {
        assert h == [q, q] + tail && h[2..] == tail;
      } else {
        assert h == [s[0]] + tail && h[1..] == tail;
      }
    }
  }

  /** How one character of a MySQL literal is printed by the two passes together. */
  function MysqlChar(c: char): string {
    if c == '\'' then "''" else if c == '\\' then "\\\\" else [c]
  }

  lemma MysqlTwoPasses(s: string)
    requires s != ""
    ensures Doubled(Doubled(s, '\''), '\\') == MysqlChar(s[0]) + Doubled(Doubled(s[1..], '\''), '\\')
  {
    hide Doubled;
    var rest := Doubled(s[1..], '\'');
    assert s == [s[0]] + s[1..];
    DoubledCons(s[0], s[1..], '\'');
    DoubledCons(s[0], rest, '\\');
    if s[0] == '\'' {
      DoubledCons(s[0], [s[0]] + rest, '\\');
      assert [s[0], s[0]] + rest == [s[0]] + ([s[0]] + rest);
    }
  }

  lemma DoubledCons(c: char, s: string, q: char)
    ensures Doubled([c] + s, q) == (if c == q then [c, c] else [c]) + Doubled(s, q)
  {
    assert ([c] + s)[1..] == s;
  }

  lemma ScanMysqlChar(c: char, tail: string)
    ensures ScanMysql(MysqlChar(c) + tail) == Prepend([c], ScanMysql(tail))
  {
    var h := MysqlChar(c) + tail;
    if c == '\'' || c == '\\' {
      assert h[0] == h[1] == c && h[2..] == tail;
    } else {
      assert h[1..] == tail;
    }
  }

  lemma {:induction false} ScanMysqlBody(s: string, k: string)
    requires !Begins(k, '\'')
    ensures ScanMysql(Doubled(Doubled(s, '\''), '\\') + "'" + k) == Some(Token(s, k))
  {
    hide MysqlChar;
    if s == "" {
      assert ("'" + k)[1..] == k;
      assert Doubled(Doubled(s, '\''), '\\') + "'" + k == "'" + k;
    } else {
      hide ScanMysql, Doubled;
      var rest := Doubled(Doubled(s[1..], '\''), '\\');
      MysqlTwoPasses(s);
      assert MysqlChar(s[0]) + rest + "'" + k == MysqlChar(s[0]) + (rest + "'" + k);
      ScanMysqlChar(s[0], rest + "'" + k);
      ScanMysqlBody(s[1..], k);
      assert [s[0]] + s[1..] == s;
    }
  }

  /** A lexer never gives back more than what stands behind the first character. */
  lemma {:induction false} ScanShortens(s: string, q: char)
    ensures ScanQuoted(s, q).Some? ==> |ScanQuoted(s, q).value.rest| < |s|
  {
    if s != "" {
      ScanShortens(s[1..], q);
      if |s| > 1 { ScanShortens(s[2..], q); }
    }
  }

  lemma {:induction false} ScanMysqlShortens(s: string)
    ensures ScanMysql(s).Some? ==> |ScanMysql(s).value.rest| < |s|
  {
    if s != "" {
      ScanMysqlShortens(s[1..]);
      if |s| > 1 { ScanMysqlShortens(s[2..]); }
    }
  }

  lemma {:induction false} ScanPostgresShortens(s: string)
    ensures ScanPostgres(s).Some? ==> |ScanPostgres(s).value.rest| < |s|
    decreases |s|
  {
    hide Resumed;
    if s != "" {
      ScanPostgresShortens(s[1..]);
      if |s| > 1 { ScanPostgresShortens(s[2..]); }
      if Resumed(s[1..], false).Some? { ScanPostgresShortens(Resumed(s[1..], false).value); }
    }
  }

  /** A printed Postgres literal, whatever follows: its text is read, and its closing quote is reached. */
  lemma {:induction false} ScanPostgresBody(s: string, k: string)
    ensures ScanPostgres(Doubled(s, '\'') + "'" + k) == Prepend(s, ScanPostgres("'" + k))
  {
    hide Resumed;
    var h := Doubled(s, '\'') + "'" + k;
    if s == "" {
      assert h == "'" + k;
      PrependNothing(ScanPostgres("'" + k));
    } else {
      var tail := Doubled(s[1..], '\'') + "'" + k;
      ScanPostgresBody(s[1..], k);
      PrependTwice(s, ScanPostgres("'" + k));
      if s[0] == '\'' {
        assert h == "''" + tail && h[2..] == tail;
      } else {
        assert h == [s[0]] + tail && h[1..] == tail;
      }
    }
  }

  lemma PrependNothing(t: Option<Token>)
    ensures Prepend("", t) == t
  {
    if t.Some? { assert "" + t.value.text == t.value.text; }
  }

  lemma PrependTwice(s: string, t: Option<Token>)
    requires s != ""
    ensures Prepend([s[0]], Prepend(s[1..], t)) == Prepend(s, t)
  {
    if t.Some? { assert [s[0]] + (s[1..] + t.value.text) == s + t.value.text; }
  }

  /** The closing quote ends the literal exactly when nothing continues it. */
  lemma ClosingQuote(k: string)
    ensures if Continues(Postgres, k) then ScanPostgres("'" + k).Some? ==> |ScanPostgres("'" + k).value.rest| < |k|
            else ScanPostgres("'" + k) == Some(Token("", k))
  {
    hide Resumed;
    var h := "'" + k;
    assert h[1..] == k;
    if Begins(k, '\'') {
      assert h[2..] == k[1..];
      ScanPostgresShortens(k[1..]);
    } else if Resumed(k, false).Some? {
      ScanPostgresShortens(Resumed(k, false).value);
    }
  }

  /** With a quote behind it, the closing quote is read as half of a doubled one. */
  lemma {:induction false} ScanRunsOn(s: string, q: char, k: string)
    requires Begins(k, q)
    ensures var t := ScanQuoted(Doubled(s, q) + [q] + k, q); t.Some? ==> |t.value.rest| < |k|
  {
    var h := Doubled(s, q) + [q] + k;
    if s == "" {
      assert h == [q] + k && h[2..] == k[1..];
      ScanShortens(k[1..], q);
    } else {
      var tail := Doubled(s[1..], q) + [q] + k;
      ScanRunsOn(s[1..], q, k);
      if s[0] == q {
        assert h == [q, q] + tail && h[2..] == tail;
      } else {
        assert h == [s[0]] + tail && h[1..] == tail;
      }
    }
  }

  lemma {:induction false} ScanMysqlRunsOn(s: string, k: string)
    requires Begins(k, '\'')
    ensures var t := ScanMysql(Doubled(Doubled(s, '\''), '\\') + "'" + k); t.Some? ==> |t.value.rest| < |k|
  {
    hide MysqlChar;
    if s == "" {
      assert ("'" + k)[2..] == k[1..];
      assert Doubled(Doubled(s, '\''), '\\') + "'" + k == "'" + k;
      ScanMysqlShortens(k[1..]);
    } else {
      hide ScanMysql, Doubled;
      var rest := Doubled(Doubled(s[1..], '\''), '\\');
      MysqlTwoPasses(s);
      assert MysqlChar(s[0]) + rest + "'" + k == MysqlChar(s[0]) + (rest + "'" + k);
      ScanMysqlChar(s[0], rest + "'" + k);
      ScanMysqlRunsOn(s[1..], k);
    }
  }

  /**
   * The engine reads a printed literal back as the same string, stopping behind it, exactly when
   * nothing continues the literal.
   */
  lemma LiteralRoundTrip(e: Engine, s: string, k: string)
    ensures LexLiteral(e, QuoteLiteral(e, s) + k) == Some(Token(s, k)) <==> !Continues(e, k)
  {
    hide Resumed;
    var h := QuoteLiteral(e, s) + k;
    assert h[1..] == LiteralBody(e, s) + "'" + k;
    if e.Postgres? {
      hide ScanPostgres;
      ScanPostgresBody(s, k);
      ClosingQuote(k);
      assert s + "" == s;
    } else {
      if Begins(k, '\'') { ScanMysqlRunsOn(s, k); } else { ScanMysqlBody(s, k); }
    }
  }

  /** A blank that leads to no quote continues nothing. */
  lemma SpaceContinuesNothing(e: Engine, k: string)
    requires k == "" || (|k| >= 2 && k[0] == ' ' && 'A' <= k[1] <= 'Z')
    ensures !Continues(e, k)
  {
    if k != "" {
      assert k[1..][0] == k[1];
      assert Resumed(k[1..], false).None?;
    }
  }

  /** What the engine makes of a printed name that no quote follows. */
  lemma IdentReads(e: Engine, s: string, k: string)
    requires !Begins(k, IdentQuote(e))
    ensures LexIdent(e, QuoteIdent(e, s) + k) == if IsName(e, s) then Some(Token(KeptName(e, s), k)) else None
  {
    hide KeptName, IsName;
    var q := IdentQuote(e);
    var h := QuoteIdent(e, s) + k;
    assert h[1..] == Doubled(s, q) + [q] + k;
    ScanDoubled(s, q, k);
  }

  /**
   * A printed name is read back exactly when no quote follows it and, for Postgres, it is not empty
   * and takes at most 63 bytes.
   */
  lemma IdentRoundTrip(e: Engine, s: string, k: string)
    ensures LexIdent(e, QuoteIdent(e, s) + k) == Some(Token(s, k)) <==> !Begins(k, IdentQuote(e)) && NameFits(e, s)
  {
    hide KeptName, IsName, NameFits;
    var q := IdentQuote(e);
    var h := QuoteIdent(e, s) + k;
    assert h[1..] == Doubled(s, q) + [q] + k;
    NameFitsIff(e, s);
    if Begins(k, q) { ScanRunsOn(s, q, k); } else { IdentReads(e, s, k); }
  }

  // ----- the WHERE clause of a full primary key -------------------------------------------

  /** `column = 'value'`, or `column IS NULL`. */
  datatype Cond = Cond(column: string, value: Option<string>)

  function Conds(cols: seq<string>, pk: map<string, Option<string>>): (r: seq<Cond>)
    ensures |r| == |cols|
    ensures forall i | 0 <= i < |cols| :: r[i] == Cond(cols[i], if cols[i] in pk then pk[cols[i]] else None)
  {
    seq(|cols|, i requires 0 <= i < |cols| => Cond(cols[i], if cols[i] in pk then pk[cols[i]] else None))
  }

  function CondSql(e: Engine, c: Cond): string {
    QuoteIdent(e, c.column) + if c.value.Some? then " = " + QuoteLiteral(e, c.value.value) else " IS NULL"
  }

  function CondsSql(e: Engine, cs: seq<Cond>): string {
    if cs == [] then ""
    else if |cs| == 1 then CondSql(e, cs[0])
    else CondSql(e, cs[0]) + " AND " + CondsSql(e, cs[1..])
  }

  function PkWhere(e: Engine, cols: seq<string>, pk: map<string, Option<string>>): string {
    CondsSql(e, Conds(cols, pk))
  }

  /** A reader of one condition: the condition, and what follows it. */
  function ReadCond(e: Engine, s: string): Option<(Cond, string)> {
    match LexIdent(e, s)
    case None => None
    case Some(id) =>
      if " = " <= id.rest then
        match LexLiteral(e, id.rest[3..])
        case None => None
        case Some(lit) => Some((Cond(id.text, Some(lit.text)), lit.rest))
      else if " IS NULL" <= id.rest then Some((Cond(id.text, None), id.rest[8..]))
      else None
  }

  /** A reader of conditions joined by AND, up to the end of the statement. */
  function ReadConds(e: Engine, s: string): Option<seq<Cond>>
    decreases |s|
  {
    match ReadCond(e, s)
    case None => None
    case Some((c, rest)) =>
      if rest == "" then Some([c])
      else if " AND " <= rest && |rest| <= |s| then
        var more := ReadConds(e, rest[5..]);
        if more.Some? then Some([c] + more.value) else None
      else None
  }

  /** What the engine makes of a condition: the column as it keeps it, or nothing. */
  function KeptCond(e: Engine, c: Cond): Option<Cond> {
    if IsName(e, c.column) then Some(c.(column := KeptName(e, c.column))) else None
  }

  function KeptConds(e: Engine, cs: seq<Cond>): Option<seq<Cond>> {
    if cs == [] then Some([])
    else
      var first, more := KeptCond(e, cs[0]), KeptConds(e, cs[1..]);
      if first.Some? && more.Some? then Some([first.value] + more.value) else None
  }

  lemma CondReads(e: Engine, c: Cond, k: string)
    requires k == "" || (|k| >= 2 && k[0] == ' ' && 'A' <= k[1] <= 'Z')
    ensures ReadCond(e, CondSql(e, c) + k)
         == if KeptCond(e, c).Some? then Some((KeptCond(e, c).value, k)) else None
  {
    hide LexIdent, LexLiteral, QuoteIdent, QuoteLiteral, Continues, IsName, KeptName;
    SpaceContinuesNothing(e, k);
    var s := CondSql(e, c) + k;
    if c.value.Some? {
      var lit := QuoteLiteral(e, c.value.value);
      var rest := " = " + lit + k;
      assert s == QuoteIdent(e, c.column) + rest;
      IdentReads(e, c.column, rest);
      assert rest[3..] == lit + k;
      LiteralRoundTrip(e, c.value.value, k);
    } else {
      var rest := " IS NULL" + k;
      assert s == QuoteIdent(e, c.column) + rest;
      IdentReads(e, c.column, rest);
      assert rest[1] == 'I' && !(" = " <= rest);
      assert rest[8..] == k;
    }
  }

  lemma {:induction false} WhereReads(e: Engine, cs: seq<Cond>)
    requires cs != []
    ensures ReadConds(e, CondsSql(e, cs)) == KeptConds(e, cs)
  {
    hide ReadCond, CondSql, KeptCond;
    if |cs| == 1 {
      CondReads(e, cs[0], "");
      assert CondSql(e, cs[0]) + "" == CondSql(e, cs[0]);
      var kept := KeptCond(e, cs[0]);
      assert KeptConds(e, cs) == if kept.Some? then Some([kept.value] + []) else None;
      assert kept.Some? ==> [kept.value] + [] == [kept.value];
    } else {
      hide ReadConds;
      var more := CondsSql(e, cs[1..]);
      var k := " AND " + more;
      assert CondSql(e, cs[0]) + " AND " + more == CondSql(e, cs[0]) + k;
      CondReads(e, cs[0], k);
      WhereReads(e, cs[1..]);
      if KeptCond(e, cs[0]).Some? {
        ReadMore(e, CondsSql(e, cs), KeptCond(e, cs[0]).value, more);
      } else {
        ReadNothing(e, CondsSql(e, cs));
      }
    }
  }

  lemma ReadNothing(e: Engine, s: string)
    requires ReadCond(e, s).None?
    ensures ReadConds(e, s).None?
  {
  }

  lemma {:induction false} KeptCondsIff(e: Engine, cs: seq<Cond>)
    ensures KeptConds(e, cs) == Some(cs) <==> forall i | 0 <= i < |cs| :: NameFits(e, cs[i].column)
  {
    hide IsName, KeptName, NameFits;
    if cs != [] {
      KeptCondsIff(e, cs[1..]);
      NameFitsIff(e, cs[0].column);
      assert forall i | 0 < i < |cs| :: cs[i] == cs[1..][i - 1];
      assert [cs[0]] + cs[1..] == cs;
      if KeptConds(e, cs).Some? {
        assert KeptConds(e, cs).value[1..] == KeptConds(e, cs[1..]).value;
      }
    }
  }

  /** The engine reads the printed WHERE clause back as exactly the printed conditions if and only if the names fit. */
  lemma WhereRoundTrip(e: Engine, cs: seq<Cond>)
    requires cs != []
    ensures ReadConds(e, CondsSql(e, cs)) == Some(cs) <==> forall i | 0 <= i < |cs| :: NameFits(e, cs[i].column)
  {
    hide ReadConds, CondsSql, KeptConds, NameFits;
    WhereReads(e, cs);
    KeptCondsIff(e, cs);
  }

  lemma ReadMore(e: Engine, s: string, c: Cond, more: string)
    requires ReadCond(e, s) == Some((c, " AND " + more)) && |" AND " + more| <= |s|
    ensures ReadConds(e, s) == (if ReadConds(e, more).Some? then Some([c] + ReadConds(e, more).value) else None)
  {
    hide ReadCond;
    var k := " AND " + more;
    assert k[5..] == more;
  }

  // ----- whole statements -----------------------------------------------------------------

  datatype Statement =
    | Update(schema: string, table: string, column: string, value: Option<string>, conds: seq<Cond>)
    | Delete(schema: string, table: string, conds: seq<Cond>)

  function Qualified(e: Engine, schema: string, table: string): string {
    QuoteIdent(e, schema) + "." + QuoteIdent(e, table)
  }

  function ValueSql(e: Engine, v: Option<string>): string { if v.Some? then QuoteLiteral(e, v.value) else "NULL" }

  /** The text `update_row` and `delete_row` send. */
  function StatementSql(e: Engine, st: Statement): string {
    match st
    case Update(schema, table, column, value, conds) =>
      "UPDATE " + Qualified(e, schema, table) + " SET " + QuoteIdent(e, column) + " = " + ValueSql(e, value)
      + " WHERE " + CondsSql(e, conds)
    case Delete(schema, table, conds) =>
      "DELETE FROM " + Qualified(e, schema, table) + " WHERE " + CondsSql(e, conds)
  }

  /** `word` at the front of `s`, and what follows. */
  function Skip(s: string, word: string): Option<string> { if word <= s then Some(s[|word|..]) else None }

  function ReadQualified(e: Engine, s: string): Option<(string, string, string)> {
    match LexIdent(e, s)
    case None => None
    case Some(a) =>
      match Skip(a.rest, ".")
      case None => None
      case Some(s1) =>
        match LexIdent(e, s1)
        case None => None
        case Some(b) => Some((a.text, b.text, b.rest))
  }

  function ReadValue(e: Engine, s: string): Option<(Option<string>, string)> {
    if "NULL" <= s then Some((None, s[4..]))
    else
      match LexLiteral(e, s)
      case None => None
      case Some(t) => Some((Some(t.text), t.rest))
  }

  function ReadUpdate(e: Engine, s: string): Option<Statement> {
    match Skip(s, "UPDATE ")
    case None => None
    case Some(s1) =>
      match ReadQualified(e, s1)
      case None => None
      case Some((schema, table, s2)) =>
        match Skip(s2, " SET ")
        case None => None
        case Some(s3) =>
          match LexIdent(e, s3)
          case None => None
          case Some(col) =>
            match Skip(col.rest, " = ")
            case None => None
            case Some(s4) =>
              match ReadValue(e, s4)
              case None => None
              case Some((value, s5)) =>
                match Skip(s5, " WHERE ")
                case None => None
                case Some(s6) =>
                  var cs := ReadConds(e, s6);
                  if cs.Some? then Some(Update(schema, table, col.text, value, cs.value)) else None
  }

  function ReadDelete(e: Engine, s: string): Option<Statement> {
    match Skip(s, "DELETE FROM ")
    case None => None
    case Some(s1) =>
      match ReadQualified(e, s1)
      case None => None
      case Some((schema, table, s2)) =>
        match Skip(s2, " WHERE ")
        case None => None
        case Some(s3) =>
          var cs := ReadConds(e, s3);
          if cs.Some? then Some(Delete(schema, table, cs.value)) else None
  }

  lemma SkipWord(word: string, rest: string)
    ensures Skip(word + rest, word) == Some(rest)
  {
    assert (word + rest)[|word|..] == rest;
  }

  lemma QualifiedReads(e: Engine, schema: string, table: string, k: string)
    requires !Begins(k, IdentQuote(e))
    ensures ReadQualified(e, Qualified(e, schema, table) + k)
         == if IsName(e, schema) && IsName(e, table) then Some((KeptName(e, schema), KeptName(e, table), k)) else None
  {
    hide LexIdent, QuoteIdent, IsName, KeptName;
    var t := QuoteIdent(e, table) + k;
    assert Qualified(e, schema, table) + k == QuoteIdent(e, schema) + ("." + t);
    IdentReads(e, schema, "." + t);
    SkipWord(".", t);
    IdentReads(e, table, k);
  }

  lemma ValueRoundTrip(e: Engine, v: Option<string>, k: string)
    requires !Continues(e, k)
    ensures ReadValue(e, ValueSql(e, v) + k) == Some((v, k))
  {
    hide LexLiteral;
    if v.Some? {
      assert (ValueSql(e, v) + k)[0] == '\'';
      LiteralRoundTrip(e, v.value, k);
    } else {
      assert ("NULL" + k)[4..] == k;
    }
  }

  /** What the engine makes of a statement: every name as it keeps it, or nothing. */
  function KeptStatement(e: Engine, st: Statement): Option<Statement> {
    var cs := KeptConds(e, st.conds);
    if !IsName(e, st.schema) || !IsName(e, st.table) || (st.Update? && !IsName(e, st.column)) || cs.None? then None
    else
      match st
      case Update(schema, table, column, value, _) =>
        Some(Update(KeptName(e, schema), KeptName(e, table), KeptName(e, column), value, cs.value))
      case Delete(schema, table, _) => Some(Delete(KeptName(e, schema), KeptName(e, table), cs.value))
  }

  function Read(e: Engine, st: Statement): Option<Statement> {
    if st.Update? then ReadUpdate(e, StatementSql(e, st)) else ReadDelete(e, StatementSql(e, st))
  }

  lemma StatementReads(e: Engine, st: Statement)
    requires st.conds != []
    ensures Read(e, st) == KeptStatement(e, st)
  {
    hide LexIdent, ReadQualified, ReadValue, ReadConds, CondsSql, QuoteIdent, Qualified, ValueSql, Skip, IsName,
      KeptName, KeptConds;
    var where := CondsSql(e, st.conds);
    WhereReads(e, st.conds);
    SkipWord(" WHERE ", where);
    var s6 := " WHERE " + where;
    var q := Qualified(e, st.schema, st.table);
    match st
    case Delete(_, _, _) =>
      assert StatementSql(e, st) == "DELETE FROM " + (q + s6);
      SkipWord("DELETE FROM ", q + s6);
      QualifiedReads(e, st.schema, st.table, s6);
    case Update(_, _, column, value, _) =>
      var s5 := ValueSql(e, value) + s6;
      var s4 := " = " + s5;
      var s3 := QuoteIdent(e, column) + s4;
      var s2 := " SET " + s3;
      AssociateUpdate(q, QuoteIdent(e, column), ValueSql(e, value), where);
      SkipWord("UPDATE ", q + s2);
      QualifiedReads(e, st.schema, st.table, s2);
      SkipWord(" SET ", s3);
      IdentReads(e, column, s4);
      SkipWord(" = ", s5);
      assert s6[0] == ' ' && s6[1] == 'W';
      SpaceContinuesNothing(e, s6);
      ValueRoundTrip(e, value, s6);
  }

  predicate StatementFits(e: Engine, st: Statement) {
    && NameFits(e, st.schema) && NameFits(e, st.table) && (st.Update? ==> NameFits(e, st.column))
    && forall i | 0 <= i < |st.conds| :: NameFits(e, st.conds[i].column)
  }

  /** The engine reads the printed statement back as exactly the requested one if and only if its names fit. */
  lemma StatementRoundTrip(e: Engine, st: Statement)
    requires st.conds != []
    ensures Read(e, st) == Some(st) <==> StatementFits(e, st)
  {
    hide Read, IsName, KeptName, NameFits, KeptConds;
    StatementReads(e, st);
    NameFitsIff(e, st.schema);
    NameFitsIff(e, st.table);
    if st.Update? { NameFitsIff(e, st.column); }
    KeptCondsIff(e, st.conds);
  }

  lemma AssociateUpdate(q: string, c: string, v: string, w: string)
    ensures "UPDATE " + q + " SET " + c + " = " + v + " WHERE " + w
         == "UPDATE " + (q + (" SET " + (c + (" = " + (v + (" WHERE " + w))))))
  {
  }

  // ----- which rows a full key reaches ----------------------------------------------------

  datatype KeyCheck = KeyOk | NoPrimaryKey | KeyMismatch

  function ValidateFullPk(cols: seq<string>, pk: map<string, Option<string>>): KeyCheck {
    if cols == [] then NoPrimaryKey
    else if |pk| != |cols| || exists c | c in cols :: c !in pk then KeyMismatch
    else KeyOk
  }

  type RowData = map<string, Option<string>>

  predicate Holds(c: Cond, row: RowData) { c.column in row && row[c.column] == c.value }

  predicate Matches(cs: seq<Cond>, row: RowData) { forall i | 0 <= i < |cs| :: Holds(cs[i], row) }

  /** The key columns are not null, and no two rows agree on all of them. */
  ghost predicate KeyedBy(cols: seq<string>, table: seq<RowData>) {
    && (forall i, c | 0 <= i < |table| && c in cols :: c in table[i] && table[i][c].Some?)
    && forall i, j | 0 <= i < j < |table| :: exists c :: c in cols && table[i][c] != table[j][c]
  }

  /** A key map without gaps is accepted exactly when it names the key columns and nothing else. */
  lemma FullPkNamesColumns(cols: seq<string>, pk: map<string, Option<string>>)
    requires forall i, j | 0 <= i < j < |cols| :: cols[i] != cols[j]
    ensures ValidateFullPk(cols, pk).KeyOk? <==> cols != [] && pk.Keys == set c | c in cols
  {
    var names := set c | c in cols;
    DistinctSize(cols);
    if ValidateFullPk(cols, pk).KeyOk? {
      assert names <= pk.Keys;
      SubsetSameSize(names, pk.Keys);
    }
  }

  lemma {:induction false} DistinctSize(cols: seq<string>)
    requires forall i, j | 0 <= i < j < |cols| :: cols[i] != cols[j]
    ensures |set c | c in cols| == |cols|
  {
    if cols != [] {
      DistinctSize(cols[1..]);
      assert (set c | c in cols) == (set c | c in cols[1..]) + {cols[0]};
    }
  }

  lemma {:induction false} SubsetSameSize<T>(a: set<T>, b: set<T>)
    requires a <= b && |a| == |b|
    ensures a == b
  {
    assert a + (b - a) == b;
    assert |a + (b - a)| == |a| + |b - a|;
  }

  predicate OneMatch(cs: seq<Cond>, table: seq<RowData>) {
    forall i, j | 0 <= i < j < |table| :: !(Matches(cs, table[i]) && Matches(cs, table[j]))
  }

  lemma KeyMatchesOnce(cols: seq<string>, pk: map<string, Option<string>>, table: seq<RowData>)
    requires KeyedBy(cols, table)
    ensures OneMatch(Conds(cols, pk), table)
  {
    var cs := Conds(cols, pk);
    forall i, j | 0 <= i < j < |table| ensures !(Matches(cs, table[i]) && Matches(cs, table[j])) {
      var c :| c in cols && table[i][c] != table[j][c];
      var k :| 0 <= k < |cols| && cols[k] == c;
      assert !(Holds(cs[k], table[i]) && Holds(cs[k], table[j]));
    }
  }

  lemma FullKeyMatches(cols: seq<string>, pk: map<string, Option<string>>, row: RowData)
    requires ValidateFullPk(cols, pk).KeyOk? && forall c | c in cols :: c in row
    ensures Matches(Conds(cols, pk), row) <==> forall c | c in cols :: row[c] == pk[c]
  {
    var cs := Conds(cols, pk);
    if Matches(cs, row) {
      forall c | c in cols ensures row[c] == pk[c] {
        var k :| 0 <= k < |cols| && cols[k] == c;
        assert Holds(cs[k], row);
      }
    }
    if forall c | c in cols :: row[c] == pk[c] {
      forall k | 0 <= k < |cs| ensures Holds(cs[k], row) { assert cols[k] in cols; }
    }
  }

  /**
   * The WHERE clause, as the engine reads it, holds of at most one row; with a key that passed
   * the check it holds of a row exactly when that row carries the key.
   */
  lemma FullKeyReachesOneRow(e: Engine, cols: seq<string>, pk: map<string, Option<string>>, table: seq<RowData>)
    requires KeyedBy(cols, table) && cols != []
    ensures ReadConds(e, PkWhere(e, cols, pk)) == Some(Conds(cols, pk)) <==>
        forall i | 0 <= i < |cols| :: NameFits(e, cols[i])
    ensures OneMatch(Conds(cols, pk), table)
    ensures ValidateFullPk(cols, pk).KeyOk? ==>
              forall i | 0 <= i < |table| ::
                Matches(Conds(cols, pk), table[i]) <==> forall c | c in cols :: table[i][c] == pk[c]
  {
    hide ReadConds, CondsSql, Matches, OneMatch, NameFits;
    WhereRoundTrip(e, Conds(cols, pk));
    assert forall i | 0 <= i < |cols| :: Conds(cols, pk)[i].column == cols[i];
    KeyMatchesOnce(cols, pk, table);
    if ValidateFullPk(cols, pk).KeyOk? {
      forall i | 0 <= i < |table|
        ensures Matches(Conds(cols, pk), table[i]) <==> forall c | c in cols :: table[i][c] == pk[c]
      {
        FullKeyMatches(cols, pk, table[i]);
      }
    }
  }

  function UpdatedRow(cs: seq<Cond>, row: RowData, column: string, value: Option<string>): RowData {
    if Matches(cs, row) then row[column := value] else row
  }

  /** An update by full key changes at most one row, and a delete removes at most one. */
  lemma WriteTouchesOneRow(cols: seq<string>, pk: map<string, Option<string>>, table: seq<RowData>,
                           column: string, value: Option<string>)
    requires KeyedBy(cols, table)
    ensures forall i, j | 0 <= i < j < |table| ::
              || UpdatedRow(Conds(cols, pk), table[i], column, value) == table[i]
              || UpdatedRow(Conds(cols, pk), table[j], column, value) == table[j]
    ensures |Kept(Conds(cols, pk), table)| >= |table| - 1
  {
    hide Conds, Matches, KeyedBy;
    KeyMatchesOnce(cols, pk, table);
    KeepsAllButOne(Conds(cols, pk), table);
  }

  /** The rows a delete leaves. */
  function Kept(cs: seq<Cond>, table: seq<RowData>): seq<RowData> {
    if table == [] then [] else (if Matches(cs, table[0]) then [] else [table[0]]) + Kept(cs, table[1..])
  }

  lemma {:induction false} KeepsAllButOne(cs: seq<Cond>, table: seq<RowData>)
    requires OneMatch(cs, table)
    ensures |Kept(cs, table)| >= |table| - 1
    ensures (forall i | 0 <= i < |table| :: !Matches(cs, table[i])) ==> Kept(cs, table) == table
  {
    hide Matches;
    if table != [] {
      assert forall i | 0 <= i < |table[1..]| :: table[1..][i] == table[i + 1];
      KeepsAllButOne(cs, table[1..]);
    }
  }

  // ----- executing what the engine reads --------------------------------------------------

  type Tables = map<(string, string), seq<RowData>>

  function UpdatedRows(cs: seq<Cond>, table: seq<RowData>, column: string, value: Option<string>): (r: seq<RowData>)
    ensures |r| == |table| && forall i | 0 <= i < |table| :: r[i] == UpdatedRow(cs, table[i], column, value)
  {
    seq(|table|, i requires 0 <= i < |table| => UpdatedRow(cs, table[i], column, value))
  }

  /** The engine on a text that is one update or delete of an existing table. */
  function Execute(e: Engine, sql: string, db: Tables): Option<Tables> {
    match ReadUpdate(e, sql)
    case Some(Update(schema, table, column, value, cs)) =>
      if (schema, table) !in db then None
      else Some(db[(schema, table) := UpdatedRows(cs, db[(schema, table)], column, value)])
    case _ =>
      match ReadDelete(e, sql)
      case Some(Delete(schema, table, cs)) =>
        if (schema, table) !in db then None else Some(db[(schema, table) := Kept(cs, db[(schema, table)])])
      case _ => None
  }

  /** The row carries this key. */
  predicate Carries(cols: seq<string>, pk: map<string, Option<string>>, row: RowData) {
    forall c | c in cols :: c in row && c in pk && row[c] == pk[c]
  }

  /**
   * From the request to the tables: an update by a checked key, as the engine reads its text, sets
   * the given column in exactly the row that carries the key, of that one table. The names are
   * those of the catalogue, which fit.
   */
  lemma UpdateByKeyReachesItsRow(e: Engine, db: Tables, schema: string, name: string, cols: seq<string>,
                                 pk: map<string, Option<string>>, column: string, value: Option<string>)
    requires (schema, name) in db && KeyedBy(cols, db[(schema, name)]) && ValidateFullPk(cols, pk).KeyOk?
    requires StatementFits(e, Update(schema, name, column, value, Conds(cols, pk)))
    ensures var table := db[(schema, name)];
            var after := Execute(e, StatementSql(e, Update(schema, name, column, value, Conds(cols, pk))), db);
            && after.Some? && after.value.Keys == db.Keys
            && (forall t | t in db && t != (schema, name) :: after.value[t] == db[t])
            && |after.value[(schema, name)]| == |table|
            && (forall i | 0 <= i < |table| ::
                  after.value[(schema, name)][i] ==
                    if Carries(cols, pk, table[i]) then table[i][column := value] else table[i])
            && forall i, j | 0 <= i < j < |table| :: !(Carries(cols, pk, table[i]) && Carries(cols, pk, table[j]))
  {
    hide ReadUpdate, ReadDelete, StatementSql, Conds, Matches, Carries, KeyedBy, StatementFits;
    var table := db[(schema, name)];
    StatementRoundTrip(e, Update(schema, name, column, value, Conds(cols, pk)));
    MatchingRowsCarry(cols, pk, table);
  }

  /** And a delete by a checked key removes exactly the row that carries it, if there is one. */
  lemma DeleteByKeyRemovesItsRow(e: Engine, db: Tables, schema: string, name: string, cols: seq<string>,
                                 pk: map<string, Option<string>>)
    requires (schema, name) in db && KeyedBy(cols, db[(schema, name)]) && ValidateFullPk(cols, pk).KeyOk?
    requires StatementFits(e, Delete(schema, name, Conds(cols, pk)))
    ensures var table := db[(schema, name)];
            var after := Execute(e, StatementSql(e, Delete(schema, name, Conds(cols, pk))), db);
            && after.Some? && after.value.Keys == db.Keys
            && (forall t | t in db && t != (schema, name) :: after.value[t] == db[t])
            && ((forall i | 0 <= i < |table| :: !Carries(cols, pk, table[i])) ==> after.value[(schema, name)] == table)
            && forall k | 0 <= k < |table| && Carries(cols, pk, table[k]) ::
                 after.value[(schema, name)] == table[..k] + table[k + 1..]
  {
    hide ReadUpdate, ReadDelete, StatementSql, Conds, Matches, Carries, KeyedBy, Kept, OneMatch, StatementFits;
    var table := db[(schema, name)];
    DeleteIsNoUpdate(e, Delete(schema, name, Conds(cols, pk)));
    StatementRoundTrip(e, Delete(schema, name, Conds(cols, pk)));
    MatchingRowsCarry(cols, pk, table);
    KeyMatchesOnce(cols, pk, table);
    KeepsAllButOne(Conds(cols, pk), table);
    forall k | 0 <= k < |table| && Carries(cols, pk, table[k])
      ensures Kept(Conds(cols, pk), table) == table[..k] + table[k + 1..]
    {
      KeepsTheOthers(Conds(cols, pk), table, k);
    }
  }

  lemma MatchingRowsCarry(cols: seq<string>, pk: map<string, Option<string>>, table: seq<RowData>)
    requires KeyedBy(cols, table) && ValidateFullPk(cols, pk).KeyOk?
    ensures |Conds(cols, pk)| > 0
    ensures forall i | 0 <= i < |table| :: Matches(Conds(cols, pk), table[i]) <==> Carries(cols, pk, table[i])
    ensures forall i, j | 0 <= i < j < |table| :: !(Carries(cols, pk, table[i]) && Carries(cols, pk, table[j]))
  {
    hide Matches;
    forall i | 0 <= i < |table| ensures Matches(Conds(cols, pk), table[i]) <==> Carries(cols, pk, table[i]) {
      FullKeyMatches(cols, pk, table[i]);
    }
    KeyMatchesOnce(cols, pk, table);
  }

  lemma {:induction false} KeepsTheOthers(cs: seq<Cond>, table: seq<RowData>, k: nat)
    requires OneMatch(cs, table) && k < |table| && Matches(cs, table[k])
    ensures Kept(cs, table) == table[..k] + table[k + 1..]
  {
    hide Matches;
    var rest := table[1..];
    assert forall i | 0 <= i < |rest| :: rest[i] == table[i + 1];
    if k == 0 {
      KeepsAllButOne(cs, rest);
      assert forall i | 0 <= i < |rest| :: !Matches(cs, rest[i]);
    } else {
      KeepsTheOthers(cs, rest, k - 1);
      assert [table[0]] + (rest[..k - 1] + rest[k..]) == table[..k] + table[k + 1..];
    }
  }

  lemma DeleteIsNoUpdate(e: Engine, st: Statement)
    requires st.Delete?
    ensures ReadUpdate(e, StatementSql(e, st)).None?
  {
    hide Qualified, CondsSql;
    var s := StatementSql(e, st);
    assert s[0] == 'D' && "UPDATE "[0] == 'U';
  }

  // ----- leading comments -----------------------------------------------------------------

  /** Index of the first `*` directly followed by `/`, or the length. */
  function FindClose(s: string): (i: nat)
    ensures i <= |s|
    ensures i < |s| ==> i + 2 <= |s| && s[i] == '*' && s[i + 1] == '/'
    ensures forall k | 0 <= k < i && k + 1 < |s| :: !(s[k] == '*' && s[k + 1] == '/')
  {
    if |s| < 2 then |s| else if s[0] == '*' && s[1] == '/' then 0 else 1 + FindClose(s[1..])
  }

  predicate IsLineComment(s: string) { |s| >= 2 && s[0] == '-' && s[1] == '-' }

  predicate IsBlockComment(s: string) { |s| >= 2 && s[0] == '/' && s[1] == '*' }

  predicate IsComment(s: string) { IsLineComment(s) || IsBlockComment(s) }

  /** What stands behind the comment at the front; an unfinished comment hides everything. */
  function AfterComment(s: string): (r: string)
    requires IsComment(s)
    ensures |r| < |s| && r == s[|s| - |r|..]
  {
    if IsLineComment(s) then
      var n := Find(s[2..], '\n');
      if n == |s[2..]| then "" else s[n + 3..]
    else
      var end := FindClose(s);
      if end == |s| then "" else s[end + 2..]
  }

  /** The statement without leading whitespace and comments. */
  function Stripped(sql: string): string
    decreases |sql|
  {
    var s := TrimStart(sql);
    if IsComment(s) then Stripped(AfterComment(s)) else s
  }

  lemma TrimStartTwice(s: string)
    ensures TrimStart(TrimStart(s)) == TrimStart(s)
    ensures Stripped(TrimStart(s)) == Stripped(s)
  {
    hide IsComment, AfterComment;
  }

  lemma StrippedStep(s: string)
    requires TrimStart(s) == s
    ensures Stripped(s) == if IsComment(s) then Stripped(TrimStart(AfterComment(s))) else s
  {
    hide IsComment, AfterComment, Text.TrimStart;
    if IsComment(s) { TrimStartTwice(AfterComment(s)); }
  }

  method SkipComment(s: string) returns (r: string)
    requires IsComment(s)
    ensures r == AfterComment(s)
  {
    hide FindClose, Text.Find;
    if IsLineComment(s) {
      var nl := Find(s[2..], '\n');
      if nl == |s[2..]| {
        return "";
      }
      return s[nl + 3..];
    }
    var end := FindClose(s);
    if end == |s| {
      return "";
    }
    return s[end + 2..];
  }

  method StripLeadingComments(sql: string) returns (r: string)
    ensures r == Stripped(sql)
  {
    hide Text.TrimStart, AfterComment, Stripped, IsComment;
    var s := TrimStart(sql);
    TrimStartTwice(sql);
    while IsComment(s)
      invariant Stripped(sql) == Stripped(s) && TrimStart(s) == s
      decreases |s|
    {
      StrippedStep(s);
      var rest := SkipComment(s);
      TrimStartTwice(rest);
      s := TrimStart(rest);
    }
    StrippedStep(s);
    return s;
  }

  predicate IsSuffix(r: string, s: string) { |r| <= |s| && r == s[|s| - |r|..] }

  lemma SuffixOfSuffix(a: string, b: string, c: string)
    requires IsSuffix(a, b) && IsSuffix(b, c)
    ensures IsSuffix(a, c)
  {
  }

  /** The result is a suffix of the statement that begins with neither whitespace nor a comment. */
  lemma {:induction false} StrippedIsBare(sql: string)
    ensures var r := Stripped(sql);
            && IsSuffix(r, sql)
            && (r != "" ==> !IsSpace(r[0]))
            && !("--" <= r) && !("/*" <= r)
            && Stripped(r) == r
    decreases |sql|
  {
    hide AfterComment, Text.TrimStart, IsSuffix, Stripped, IsLineComment, IsBlockComment, IsSpace;
    var s := TrimStart(sql);
    CommentOpeners(Stripped(sql));
    TrimStartTwice(sql);
    StrippedStep(s);
    assert IsSuffix(s, sql) by { TrimIsSuffix(sql); }
    if IsComment(s) {
      var rest := AfterComment(s);
      assert IsSuffix(rest, s) by { CommentIsSuffix(s); }
      TrimStartTwice(rest);
      StrippedIsBare(rest);
      SuffixOfSuffix(Stripped(rest), rest, s);
      SuffixOfSuffix(Stripped(rest), s, sql);
    }
  }

  lemma TrimIsSuffix(s: string)
    ensures IsSuffix(TrimStart(s), s)
  {
    TrimStartIsSuffix(s);
  }

  lemma CommentIsSuffix(s: string)
    requires IsComment(s)
    ensures IsSuffix(AfterComment(s), s)
  {
  }

  /** Text a statement may carry in front: spaces, line comments, and block comments closed where they end. */
  datatype Gap = Spaces(text: string) | LineComment(text: string) | BlockComment(text: string)

  predicate ValidGap(g: Gap) {
    match g
    case Spaces(t) => forall i | 0 <= i < |t| :: IsSpace(t[i])
    case LineComment(t) => '\n' !in t
    case BlockComment(t) => IsBlockComment(t) && FindClose(t) + 2 == |t|
  }

  function GapText(g: Gap): string { if g.LineComment? then "--" + g.text + "\n" else g.text }

  function GapsText(gs: seq<Gap>): string { if gs == [] then "" else GapText(gs[0]) + GapsText(gs[1..]) }

  lemma {:induction false} SpacesVanish(t: string, s: string)
    requires forall i | 0 <= i < |t| :: IsSpace(t[i])
    ensures TrimStart(t + s) == TrimStart(s)
  {
    if t == "" {
      assert t + s == s;
    } else {
      assert (t + s)[1..] == t[1..] + s;
      SpacesVanish(t[1..], s);
    }
  }

  lemma {:induction false} CloseInPrefix(t: string, s: string)
    requires FindClose(t) + 2 == |t|
    ensures FindClose(t + s) == FindClose(t)
  {
    var u := t + s;
    if |t| > 2 {
      assert u[1..] == t[1..] + s;
      CloseInPrefix(t[1..], s);
    }
  }

  lemma LineCommentVanishes(t: string, s: string)
    requires '\n' !in t
    ensures var u := "--" + t + "\n" + s; IsComment(u) && AfterComment(u) == s
  {
    hide FindClose;
    var u := "--" + t + "\n" + s;
    var v := u[2..];
    assert v == t + "\n" + s;
    assert forall j | 0 <= j < |t| :: v[j] == t[j] && t[j] != '\n';
    assert v[|t|] == '\n';
    assert Find(v, '\n') == |t|;
    assert u[|t| + 3..] == s;
  }

  lemma BlockCommentVanishes(t: string, s: string)
    requires IsBlockComment(t) && FindClose(t) + 2 == |t|
    ensures IsComment(t + s) && AfterComment(t + s) == s
  {
    hide FindClose, Text.Find;
    CloseInPrefix(t, s);
    assert (t + s)[|t|..] == s;
  }

  lemma CommentVanishes(u: string)
    requires IsComment(u)
    ensures Stripped(u) == Stripped(AfterComment(u))
  {
    hide AfterComment;
    assert TrimStart(u) == u;
  }

  lemma GapVanishes(g: Gap, s: string)
    requires ValidGap(g)
    ensures Stripped(GapText(g) + s) == Stripped(s)
  {
    hide FindClose, Text.TrimStart, AfterComment;
    match g
    case Spaces(t) =>
      SpacesVanish(t, s);
    case LineComment(t) =>
      LineCommentVanishes(t, s);
      CommentVanishes(GapText(g) + s);
    case BlockComment(t) =>
      BlockCommentVanishes(t, s);
      CommentVanishes(t + s);
  }

  /** Leading whitespace and comments, in any number, do not change what is left. */
  lemma {:induction false} GapsVanish(gs: seq<Gap>, s: string)
    requires forall i | 0 <= i < |gs| :: ValidGap(gs[i])
    ensures Stripped(GapsText(gs) + s) == Stripped(s)
  {
    hide Stripped, ValidGap, GapText;
    if gs == [] {
      assert "" + s == s;
    } else {
      GapsVanish(gs[1..], s);
      GapVanishes(gs[0], GapsText(gs[1..]) + s);
      assert GapsText(gs) + s == GapText(gs[0]) + (GapsText(gs[1..]) + s);
    }
  }

  const READ_WORDS: set<string> := {"select", "with", "values", "table", "show", "explain", "describe", "desc"}

  /** The leading alphanumeric run in lower case; the character tables are parameters. */
  function FirstWord(s: string, alnum: char -> bool, lower: char -> string): string {
    if s == "" || !alnum(s[0]) then "" else lower(s[0]) + FirstWord(s[1..], alnum, lower)
  }

  predicate IsReadStmt(sql: string, alnum: char -> bool, lower: char -> string) {
    FirstWord(Stripped(sql), alnum, lower) in READ_WORDS
  }

  /** A statement is classified the same with any leading whitespace and comments. */
  lemma ClassIgnoresGaps(gs: seq<Gap>, s: string, alnum: char -> bool, lower: char -> string)
    requires forall i | 0 <= i < |gs| :: ValidGap(gs[i])
    ensures IsReadStmt(GapsText(gs) + s, alnum, lower) <==> IsReadStmt(s, alnum, lower)
  {
    hide Stripped, FirstWord, ValidGap;
    GapsVanish(gs, s);
  }

  function Lowered(w: string, lower: char -> string): string {
    if w == "" then "" else lower(w[0]) + Lowered(w[1..], lower)
  }

  lemma {:induction false} FirstWordIs(w: string, rest: string, alnum: char -> bool, lower: char -> string)
    requires forall i | 0 <= i < |w| :: alnum(w[i])
    requires rest == "" || !alnum(rest[0])
    ensures FirstWord(w + rest, alnum, lower) == Lowered(w, lower)
  {
    if w == "" {
      assert w + rest == rest;
    } else {
      assert (w + rest)[1..] == w[1..] + rest;
      FirstWordIs(w[1..], rest, alnum, lower);
    }
  }

  /**
   * A statement is taken for a read exactly when its first word, behind any whitespace and comments
   * and whatever follows it, is one of eight in lower case. A statement that starts with no word is not.
   */
  lemma ReadStatementIff(gs: seq<Gap>, w: string, rest: string, alnum: char -> bool, lower: char -> string)
    requires forall i | 0 <= i < |gs| :: ValidGap(gs[i])
    requires forall i | 0 <= i < |w| :: alnum(w[i])
    requires rest == "" || !alnum(rest[0])
    requires w + rest != "" ==> !IsSpace((w + rest)[0])
    requires !("--" <= w + rest) && !("/*" <= w + rest)
    ensures IsReadStmt(GapsText(gs) + (w + rest), alnum, lower) <==>
            Lowered(w, lower) in ["select", "with", "values", "table", "show", "explain", "describe", "desc"]
  {
    hide Stripped, FirstWord, ValidGap, IsSpace, IsLineComment, IsBlockComment, Lowered, Text.TrimStart;
    GapsVanish(gs, w + rest);
    CommentOpeners(w + rest);
    BareStays(w + rest);
    FirstWordIs(w, rest, alnum, lower);
    ReadWords(Lowered(w, lower));
  }

  lemma CommentOpeners(s: string)
    ensures IsLineComment(s) <==> "--" <= s
    ensures IsBlockComment(s) <==> "/*" <= s
  {
  }

  lemma BareStays(s: string)
    requires s != "" ==> !IsSpace(s[0])
    requires !IsLineComment(s) && !IsBlockComment(s)
    ensures Stripped(s) == s
  {
    hide IsLineComment, IsBlockComment, AfterComment;
    assert TrimStart(s) == s;
    StrippedStep(s);
  }

  lemma ReadWords(w: string)
    ensures w in READ_WORDS <==>
            w in ["select", "with", "values", "table", "show", "explain", "describe", "desc"]
  {
  }

  // ----- block comments as the engines read them ------------------------------------------

  /** Behind an opener, `depth` comments deep: the length up to the close of the outermost one. */
  function NestedEnd(s: string, depth: nat): (n: Option<nat>)
    requires depth > 0
    ensures n.Some? ==> 2 * depth <= n.value <= |s|
  {
    if |s| < 2 then None
    else if s[0] == '*' && s[1] == '/' then if depth == 1 then Some(2) else Further(2, NestedEnd(s[2..], depth - 1))
    else if s[0] == '/' && s[1] == '*' then Further(2, NestedEnd(s[2..], depth + 1))
    else Further(1, NestedEnd(s[1..], depth))
  }

  function Further(k: nat, n: Option<nat>): Option<nat> { if n.Some? then Some(k + n.value) else None }

  /** The text is one whole block comment to the engine: comments nest in Postgres, not in MySQL. */
  predicate EngineComment(e: Engine, t: string) {
    && IsBlockComment(t)
    && if e.Postgres? then NestedEnd(t[2..], 1) == Some(|t| - 2) else |t| >= 4 && FindClose(t[2..]) + 4 == |t|
  }

  predicate HasOpener(s: string) { |s| >= 2 && ((s[0] == '/' && s[1] == '*') || HasOpener(s[1..])) }

  /** The first close is not behind the end, and deeper than one it is before it. */
  lemma {:induction false} DeepCloseIsEarly(s: string, depth: nat)
    requires depth >= 1 && NestedEnd(s, depth).Some?
    ensures FindClose(s) + 2 <= NestedEnd(s, depth).value
    ensures depth >= 2 ==> FindClose(s) + 2 < NestedEnd(s, depth).value
    decreases |s|
  {
    if s[0] == '*' && s[1] == '/' {
    } else if s[0] == '/' && s[1] == '*' {
      DeepCloseIsEarly(s[2..], depth + 1);
      assert s[1..][1..] == s[2..];
    } else {
      DeepCloseIsEarly(s[1..], depth);
    }
  }

  /** A nested comment's first close is its end exactly when nothing is opened inside. */
  lemma {:induction false} FlatIffNoOpener(s: string)
    requires NestedEnd(s, 1) == Some(|s|)
    ensures FindClose(s) + 2 == |s| <==> !HasOpener(s)
  {
    if s[0] == '*' && s[1] == '/' {
      assert |s| == 2;
    } else if s[0] == '/' && s[1] == '*' {
      DeepCloseIsEarly(s[2..], 2);
      assert s[1..][1..] == s[2..];
    } else {
      FlatIffNoOpener(s[1..]);
    }
  }

  /**
   * What the engine reads as one block comment in front of a statement is dropped whole exactly
   * when its opener is not followed by a slash and, for Postgres, no comment opens inside it.
   */
  lemma BlockCommentDroppedIff(e: Engine, t: string, s: string)
    requires EngineComment(e, t)
    ensures IsComment(t + s)
    ensures AfterComment(t + s) == s <==> t[2] != '/' && (e.Postgres? ==> !HasOpener(t[2..]))
  {
    hide Text.Find, NestedEnd, FindClose;
    if e.Postgres? {
      FlatIffNoOpener(t[2..]);
      DeepCloseIsEarly(t[2..], 1);
    }
    FirstClose(t);
    CloseEndsComment(t, s);
  }

  lemma FirstClose(t: string)
    requires IsBlockComment(t) && |t| >= 4
    ensures FindClose(t) == if t[2] == '/' then 1 else 2 + FindClose(t[2..])
  {
    assert t[1..][1..] == t[2..];
  }

  /** A text that holds a close is dropped whole exactly when its first close is its end. */
  lemma CloseEndsComment(t: string, s: string)
    requires IsBlockComment(t) && FindClose(t) < |t|
    ensures AfterComment(t + s) == s <==> FindClose(t) + 2 == |t|
  {
    hide Text.Find;
    CloseStays(t, s);
    var rest := (t + s)[FindClose(t) + 2..];
    if rest == s { assert |rest| == |t| + |s| - FindClose(t) - 2; }
    if FindClose(t) + 2 == |t| { assert (t + s)[|t|..] == s; }
  }

  lemma {:induction false} CloseStays(t: string, s: string)
    requires FindClose(t) < |t|
    ensures FindClose(t + s) == FindClose(t)
  {
    if !(t[0] == '*' && t[1] == '/') {
      assert (t + s)[1..] == t[1..] + s;
      CloseStays(t[1..], s);
    }
  }

  /** To MySQL this is one comment; the scan takes its first three characters for one. */
  lemma OverlappingCommentCloses()
    ensures EngineComment(Mysql, "/*/*/") && AfterComment("/*/*/") == "*/"
    ensures ValidGap(BlockComment("/*/"))
  {
    var t, u := "/*/*/", "/*/";
    assert t[2..] == u && u[1..] == "*/";
    assert FindClose("*/") == 0;
    assert FindClose(u) == 1;
    FirstClose(t);
    assert t[3..] == "*/";
  }
}
