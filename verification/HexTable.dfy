/** Printing tables of hexadecimal numbers for C (resources/eyes/240x240/hextable.py). */
module HexTable {
  import opened Arithmetic

  /** Numbers per line, digits per number and spaces before a line. */
  datatype Layout = Layout(columns: nat, digits: nat, indent: nat)

  datatype Counters = Counters(counter: nat, column: nat)

  function Spaces(n: nat): string {
    seq(n, _ => ' ')
  }

  function Zeros(n: nat): string {
    seq(n, _ => '0')
  }

  const DIGITS: string := "0123456789ABCDEF"

  function Hex(value: nat): (r: string)
    ensures r != ""
  {
    if value < 16 then [DIGITS[value]] else Hex(value / 16) + [DIGITS[value % 16]]
  }

  function Numeral(value: nat, digits: nat): string {
    var h := Hex(value);
    "0x" + Zeros(if |h| < digits then digits - |h| else 0) + h
  }

  function Start(l: Layout): Counters {
    Counters(0, l.columns)
  }

  function Next(l: Layout, c: Counters): Counters {
    Counters(c.counter + 1, if c.column + 1 >= l.columns then 0 else c.column + 1)
  }

  /** What comes between a number and the one before it. */
  function Lead(l: Layout, c: Counters): string {
    (if c.counter == 0 then "" else if c.column < l.columns - 1 then ", " else ",")
    + (if c.column + 1 < l.columns then "" else (if c.counter == 0 then "" else "\n") + Spaces(l.indent + 2))
  }

  function Ending(l: Layout): string {
    "\n" + Spaces(l.indent) + "};\n\n"
  }

  /** The text for one value. */
  function Piece(l: Layout, limit: nat, c: Counters, value: nat): string {
    Lead(l, c) + Numeral(value, l.digits) + (if c.counter + 1 >= limit then Ending(l) else "")
  }

  class Table {
    var out: string
    var limit: nat
    var counter: nat
    var column: nat
    const layout: Layout

    function View(): Counters
      reads this
    {
      Counters(counter, column)
    }

    constructor (out: string, count: nat, layout: Layout)
      ensures this.out == out && limit == count && this.layout == layout && View() == Start(layout)
    {
      this.out, limit, this.layout := out, count, layout;
      counter, column := 0, layout.columns;
    }

    /** The comma after the value before, and the start of a new line where one is due. */
    method Separate()
      modifies this`out, this`column
      ensures out == old(out) + Lead(layout, old(View()))
      ensures View() == Next(layout, old(View())).(counter := counter)
    {
      if counter > 0 {
        out := out + ",";
        if column < layout.columns - 1 {
          out := out + " ";
        }
      }
      ghost var comma := if counter == 0 then "" else if column < layout.columns - 1 then ", " else ",";
      assert out == old(out) + comma;
      column := column + 1;
      if column >= layout.columns {
        if counter > 0 {
          out := out + "\n";
        }
        out := out + Spaces(layout.indent + 2);
        column := 0;
      }
    }

    method Finish()
      modifies this`out
      ensures out == old(out) + Ending(layout)
    {
      out := out + "\n";
      out := out + Spaces(layout.indent);
      out := out + "};\n\n";
    }

    method Write(value: nat)
      modifies this`out, this`counter, this`column
      ensures out == old(out) + Piece(layout, limit, old(View()), value)
      ensures View() == Next(layout, old(View()))
    {
      hide Lead, Ending, Numeral;
      Separate();
      out := out + Numeral(value, layout.digits);
      counter := counter + 1;
      if counter >= limit {
        Finish();
      }
    }

    /** A count of 0 keeps the one before. */
    method Reset(count: nat)
      modifies this`limit, this`counter, this`column
      ensures limit == if count > 0 then count else old(limit)
      ensures View() == Start(layout)
    {
      if count > 0 {
        limit := count;
      }
      counter := 0;
      column := layout.columns;
    }

    /** The writing of a whole table, as outputGreyscale does it. */
    method WriteAll(data: seq<nat>)
      requires View() == Start(layout)
      modifies this`out, this`counter, this`column
      ensures out == old(out) + Text(layout, limit, data)
      ensures View() == After(layout, |data|)
    {
      hide Text, Piece;
      TextOfNone(layout, limit);
      assert data[..0] == [];
      for i := 0 to |data|
        invariant out == old(out) + Text(layout, limit, data[..i])
        invariant View() == After(layout, i)
      {
        assert data[..i + 1] == data[..i] + [data[i]];
        TextGrows(layout, limit, data[..i], data[i]);
        Write(data[i]);
      }
      assert data[..|data|] == data;
    }
  }

  function After(l: Layout, n: nat): Counters {
    if n == 0 then Start(l) else Next(l, After(l, n - 1))
  }

  /** The text for values written from the start. */
  function Text(l: Layout, limit: nat, values: seq<nat>): string {
    if values == [] then ""
    else
      var n := |values| - 1;
      Text(l, limit, values[..n]) + Piece(l, limit, After(l, n), values[n])
  }

  lemma AfterNone(l: Layout)
    ensures After(l, 0) == Start(l)
  {
  }

  lemma AfterStep(l: Layout, n: nat)
    ensures After(l, n + 1) == Next(l, After(l, n))
  {
  }

  lemma TextOfNone(l: Layout, limit: nat)
    ensures Text(l, limit, []) == ""
  {
  }

  lemma TextGrows(l: Layout, limit: nat, values: seq<nat>, v: nat)
    ensures Text(l, limit, values + [v]) == Text(l, limit, values) + Piece(l, limit, After(l, |values|), v)
  {
  }

  lemma {:induction false} AfterValues(l: Layout, n: nat)
    requires l.columns >= 1
    ensures After(l, n) == Counters(n, if n == 0 then l.columns else (n - 1) % l.columns)
  {
    if n != 0 {
      AfterValues(l, n - 1);
      if n > 1 { NextColumn(n - 2, l.columns); }
    }
  }

  lemma NextColumn(k: nat, columns: nat)
    requires columns >= 1
    ensures (k + 1) % columns == if k % columns + 1 >= columns then 0 else k % columns + 1
  {
    var q, r := k / columns, k % columns;
    if r + 1 < columns {
      IndexSplit(columns, r + 1, q);
    } else {
      assert (q + 1) * columns == q * columns + columns;
      IndexSplit(columns, 0, q + 1);
    }
  }

  // ---------------------------------------------------------------- reading a table

  datatype Token = Num(value: nat) | Comma | Newline | Close | Semicolon

  /** Between tokens; after a 0; inside a number; or at a character that fits no token. */
  datatype Mode = Between | Zero | Prefix | Number(value: nat) | Bad

  datatype Lexer = Lexer(tokens: seq<Token>, mode: Mode)

  function DigitValue(c: char): (r: int)
    ensures -1 <= r < 16
  {
    if '0' <= c <= '9' then c as int - '0' as int
    else if 'A' <= c <= 'F' then c as int - 'A' as int + 10
    else if 'a' <= c <= 'f' then c as int - 'a' as int + 10
    else -1
  }

  function Mark(tokens: seq<Token>, c: char): Lexer {
    if c == ' ' then Lexer(tokens, Between)
    else if c == '\n' then Lexer(tokens + [Newline], Between)
    else if c == ',' then Lexer(tokens + [Comma], Between)
    else if c == '}' then Lexer(tokens + [Close], Between)
    else if c == ';' then Lexer(tokens + [Semicolon], Between)
    else if c == '0' then Lexer(tokens, Zero)
    else Lexer(tokens, Bad)
  }

  function Read(s: Lexer, c: char): Lexer {
    match s.mode
    case Between => Mark(s.tokens, c)
    case Zero => Lexer(s.tokens, if c == 'x' then Prefix else Bad)
    case Prefix => Lexer(s.tokens, if DigitValue(c) >= 0 then Number(DigitValue(c)) else Bad)
    case Number(v) =>
      if DigitValue(c) >= 0 then Lexer(s.tokens, Number(16 * v + DigitValue(c)))
      else Mark(s.tokens + [Num(v)], c)
    case Bad => s
  }

  function Lex(s: Lexer, text: string): Lexer {
    if text == "" then s else Read(Lex(s, text[..|text| - 1]), text[|text| - 1])
  }

  lemma {:induction false} LexAppend(s: Lexer, a: string, b: string)
    ensures Lex(s, a + b) == Lex(Lex(s, a), b)
    decreases |b|
  {
    if b == "" {
      assert a + b == a;
    } else {
      var n := |b| - 1;
      assert (a + b)[..|a + b| - 1] == a + b[..n];
      LexAppend(s, a, b[..n]);
    }
  }

  lemma LexOne(s: Lexer, c: char)
    ensures Lex(s, [c]) == Read(s, c)
  {
  }

  lemma {:induction false} LexSpaces(tokens: seq<Token>, n: nat)
    ensures Lex(Lexer(tokens, Between), Spaces(n)) == Lexer(tokens, Between)
  {
    if n > 0 {
      assert Spaces(n)[..n - 1] == Spaces(n - 1);
      LexSpaces(tokens, n - 1);
    }
  }

  lemma {:induction false} LexZeros(tokens: seq<Token>, n: nat)
    ensures Lex(Lexer(tokens, Prefix), Zeros(n)) == Lexer(tokens, if n == 0 then Prefix else Number(0))
  {
    if n > 0 {
      assert Zeros(n)[..n - 1] == Zeros(n - 1);
      LexZeros(tokens, n - 1);
    }
  }

  lemma DigitReadsBack(d: nat)
    requires d < 16
    ensures DigitValue(DIGITS[d]) == d
  {
  }

  lemma {:induction false} LexHex(tokens: seq<Token>, mode: Mode, value: nat)
    requires mode == Prefix || mode == Number(0)
    ensures Lex(Lexer(tokens, mode), Hex(value)) == Lexer(tokens, Number(value))
  {
    hide Lex, DigitValue, Mark;
    var s := Lexer(tokens, mode);
    if value < 16 {
      LexOne(s, DIGITS[value]);
      DigitReadsBack(value);
    } else {
      var h, c := Hex(value / 16), DIGITS[value % 16];
      LexHex(tokens, mode, value / 16);
      LexAppend(s, h, [c]);
      LexOne(Lex(s, h), c);
      DigitReadsBack(value % 16);
    }
  }

  lemma LexNumeral(tokens: seq<Token>, value: nat, digits: nat)
    ensures Lex(Lexer(tokens, Between), Numeral(value, digits)) == Lexer(tokens, Number(value))
  {
    var s, h := Lexer(tokens, Between), Hex(value);
    var z := if |h| < digits then digits - |h| else 0;
    LexOne(s, '0');
    LexOne(Lexer(tokens, Zero), 'x');
    LexAppend(s, "0", "x");
    assert "0x" == "0" + "x";
    LexZeros(tokens, z);
    LexAppend(s, "0x", Zeros(z));
    LexHex(tokens, if z == 0 then Prefix else Number(0), value);
    LexAppend(s, "0x" + Zeros(z), h);
  }

  // ---------------------------------------------------------------- the round trip

  /** The tokens before value i: a comma, and a line break before every columns-th value. */
  function LeadTokens(columns: nat, i: nat): seq<Token>
    requires columns >= 1
  {
    if i == 0 then [] else if i % columns == 0 then [Comma, Newline] else [Comma]
  }

  /** The values, comma-separated, with `columns` of them on each line. */
  function Body(columns: nat, values: seq<nat>): seq<Token>
    requires columns >= 1
  {
    if values == [] then []
    else
      var n := |values| - 1;
      Body(columns, values[..n]) + LeadTokens(columns, n) + [Num(values[n])]
  }

  const END: seq<Token> := [Newline, Close, Semicolon, Newline, Newline]

  /** A number in the middle of being read, as a token. */
  function Flushed(s: Lexer): seq<Token> {
    if s.mode.Number? then s.tokens + [Num(s.mode.value)] else s.tokens
  }

  /** Where a value may follow: at the start of the table or after another value. */
  predicate Resumes(s: Lexer, c: Counters) {
    if c.counter == 0 then s.mode == Between else s.mode.Number?
  }

  lemma LexLead(s: Lexer, l: Layout, c: Counters)
    requires l.columns >= 1 && c == After(l, c.counter) && Resumes(s, c)
    ensures Lex(s, Lead(l, c)) == Lexer(Flushed(s) + LeadTokens(l.columns, c.counter), Between)
  {
    AfterValues(l, c.counter);
    if c.counter > 0 { NextColumn(c.counter - 1, l.columns); }
    var wraps := c.column + 1 >= l.columns;
    var comma := if c.counter == 0 then "" else if c.column < l.columns - 1 then ", " else ",";
    var break' := if wraps then (if c.counter == 0 then "" else "\n") + Spaces(l.indent + 2) else "";
    LexComma(s, c.counter > 0, !wraps);
    var t := Flushed(s) + if c.counter == 0 then [] else [Comma];
    LexBreak(t, wraps, c.counter > 0, l.indent + 2);
    assert Lead(l, c) == comma + break';
    LexAppend(s, comma, break');
    assert Flushed(s) + [Comma] + [Newline] == Flushed(s) + [Comma, Newline];
  }

  lemma LexComma(s: Lexer, some: bool, space: bool)
    requires if some then s.mode.Number? else s.mode == Between
    ensures Lex(s, if !some then "" else if space then ", " else ",")
         == Lexer(Flushed(s) + if some then [Comma] else [], Between)
  {
    if some {
      LexOne(s, ',');
      LexOne(Lexer(Flushed(s) + [Comma], Between), ' ');
      LexAppend(s, ",", " ");
      assert ", " == "," + " ";
    }
  }

  lemma LexBreak(tokens: seq<Token>, wraps: bool, newline: bool, n: nat)
    ensures Lex(Lexer(tokens, Between), if !wraps then "" else (if newline then "\n" else "") + Spaces(n))
         == Lexer(tokens + if wraps && newline then [Newline] else [], Between)
  {
    if wraps {
      var s := Lexer(tokens, Between);
      LexOne(s, '\n');
      LexAppend(s, "\n", Spaces(n));
      LexSpaces(tokens + [Newline], n);
      LexSpaces(tokens, n);
      assert "" + Spaces(n) == Spaces(n);
    }
  }

  lemma LexEnding(s: Lexer, l: Layout)
    requires s.mode.Number?
    ensures Lex(s, Ending(l)) == Lexer(Flushed(s) + END, Between)
  {
    var t := Flushed(s);
    LexOne(s, '\n');
    LexAppend(s, "\n", Spaces(l.indent));
    LexSpaces(t + [Newline], l.indent);
    var u := Lexer(t + [Newline], Between);
    LexClosing(u);
    LexAppend(s, "\n" + Spaces(l.indent), "};\n\n");
    assert t + [Newline] + [Close, Semicolon, Newline, Newline] == t + END;
  }

  lemma LexClosing(s: Lexer)
    requires s.mode == Between
    ensures Lex(s, "};\n\n") == Lexer(s.tokens + [Close, Semicolon, Newline, Newline], Between)
  {
    hide Lex;
    var a := Lexer(s.tokens + [Close], Between);
    var b := Lexer(a.tokens + [Semicolon], Between);
    var c := Lexer(b.tokens + [Newline], Between);
    LexOne(s, '}');
    LexOne(a, ';');
    LexOne(b, '\n');
    LexOne(c, '\n');
    LexAppend(s, "}", ";");
    LexAppend(s, "};", "\n");
    LexAppend(s, "};\n", "\n");
    assert "};" == "}" + ";" && "};\n" == "};" + "\n" && "};\n\n" == "};\n" + "\n";
  }

  lemma LexPiece(s: Lexer, l: Layout, limit: nat, c: Counters, value: nat)
    requires l.columns >= 1 && c == After(l, c.counter) && Resumes(s, c)
    ensures var t := Flushed(s) + LeadTokens(l.columns, c.counter);
      Lex(s, Piece(l, limit, c, value))
      == if c.counter + 1 >= limit then Lexer(t + [Num(value)] + END, Between) else Lexer(t, Number(value))
  {
    hide Lex, Lead, Numeral, Ending, After, LeadTokens;
    var t := Flushed(s) + LeadTokens(l.columns, c.counter);
    LexLead(s, l, c);
    LexNumeral(t, value, l.digits);
    LexAppend(s, Lead(l, c), Numeral(value, l.digits));
    if c.counter + 1 >= limit {
      LexEnding(Lexer(t, Number(value)), l);
      LexAppend(s, Lead(l, c) + Numeral(value, l.digits), Ending(l));
    } else {
      var text := Lead(l, c) + Numeral(value, l.digits);
      assert text + "" == text;
    }
  }

  lemma {:induction false} LexText(l: Layout, limit: nat, values: seq<nat>)
    requires l.columns >= 1 && |values| <= limit
    ensures var s := Lex(Lexer([], Between), Text(l, limit, values));
      if values != [] && |values| == limit then s == Lexer(Body(l.columns, values) + END, Between)
      else Flushed(s) == Body(l.columns, values) && Resumes(s, After(l, |values|))
  {
    AfterValues(l, |values|);
    if values != [] {
      var n := |values| - 1;
      var s := Lexer([], Between);
      LexText(l, limit, values[..n]);
      AfterValues(l, n);
      LexAppend(s, Text(l, limit, values[..n]), Piece(l, limit, After(l, n), values[n]));
      LexPiece(Lex(s, Text(l, limit, values[..n])), l, limit, After(l, n), values[n]);
    }
  }

  function Numbers(tokens: seq<Token>): seq<nat> {
    if tokens == [] then []
    else
      var n := |tokens| - 1;
      Numbers(tokens[..n]) + if tokens[n].Num? then [tokens[n].value] else []
  }

  lemma {:induction false} NumbersAppend(a: seq<Token>, b: seq<Token>)
    ensures Numbers(a + b) == Numbers(a) + Numbers(b)
    decreases |b|
  {
    if b == [] {
      assert a + b == a;
    } else {
      var n := |b| - 1;
      assert (a + b)[..|a + b| - 1] == a + b[..n];
      NumbersAppend(a, b[..n]);
    }
  }

  lemma {:induction false} NoNumbers(tokens: seq<Token>)
    requires forall k :: 0 <= k < |tokens| ==> !tokens[k].Num?
    ensures Numbers(tokens) == []
  {
    if tokens != [] { NoNumbers(tokens[..|tokens| - 1]); }
  }

  lemma NumbersGrow(before: seq<Token>, columns: nat, n: nat, v: nat)
    requires columns >= 1
    ensures Numbers(before + LeadTokens(columns, n) + [Num(v)]) == Numbers(before) + [v]
    ensures forall k :: 0 <= k < |LeadTokens(columns, n)| ==> !LeadTokens(columns, n)[k].Close?
  {
    hide Numbers;
    var lead := LeadTokens(columns, n);
    NoNumbers(lead);
    NumbersAppend(before, lead);
    NumbersAppend(before + lead, [Num(v)]);
    OneNumber(v);
    assert Numbers(before) + [] == Numbers(before);
  }

  lemma OneNumber(v: nat)
    ensures Numbers([Num(v)]) == [v]
  {
  }

  lemma {:induction false} BodyNumbers(columns: nat, values: seq<nat>)
    requires columns >= 1
    ensures Numbers(Body(columns, values)) == values
    ensures forall k :: 0 <= k < |Body(columns, values)| ==> !Body(columns, values)[k].Close?
  {
    hide LeadTokens;
    if values != [] {
      var n := |values| - 1;
      BodyNumbers(columns, values[..n]);
      NumbersGrow(Body(columns, values[..n]), columns, n, values[n]);
      assert values == values[..n] + [values[n]];
    }
  }

  lemma EndHasNoNumbers()
    ensures Numbers(END) == []
  {
    NoNumbers(END);
  }

  /**
   Writing exactly as many values as the table was made for gives text that reads back to them, with
   a single closing brace, which comes after the last of them.
   */
  lemma TableReadsBack(l: Layout, values: seq<nat>)
    requires l.columns >= 1 && values != []
    ensures var s := Lex(Lexer([], Between), Text(l, |values|, values));
      && s.mode == Between
      && Numbers(s.tokens) == values
      && |s.tokens| >= 5 && s.tokens[|s.tokens| - 5..] == END
      && forall k :: 0 <= k < |s.tokens| - 5 ==> !s.tokens[k].Close?
  {
    hide Lex, Text, Body, Numbers;
    LexText(l, |values|, values);
    var body := Body(l.columns, values);
    BodyNumbers(l.columns, values);
    EndHasNoNumbers();
    NumbersAppend(body, END);
    assert |body + END| == |body| + 5 && (body + END)[|body|..] == END;
  }

  /** Until the last value there is no brace, and the values so far can be read. */
  lemma PartialTableReadsBack(l: Layout, limit: nat, values: seq<nat>)
    requires l.columns >= 1 && |values| < limit
    ensures var s := Lex(Lexer([], Between), Text(l, limit, values));
      && s.mode != Bad
      && Numbers(Flushed(s)) == values
      && forall k :: 0 <= k < |Flushed(s)| ==> !Flushed(s)[k].Close?
  {
    LexText(l, limit, values);
    BodyNumbers(l.columns, values);
  }

  /** The numbers since the last line break. */
  function OnLine(tokens: seq<Token>): nat {
    if tokens == [] then 0
    else
      var n := |tokens| - 1;
      match tokens[n]
      case Newline => 0
      case Num(_) => OnLine(tokens[..n]) + 1
      case _ => OnLine(tokens[..n])
  }

  /** No line holds more than `columns` values, and none that is broken off holds fewer. */
  predicate LinesFit(columns: nat, tokens: seq<Token>) {
    && (forall k :: 0 <= k <= |tokens| ==> OnLine(tokens[..k]) <= columns)
    && (forall k :: 0 <= k < |tokens| && tokens[k] == Newline ==> OnLine(tokens[..k]) == columns)
  }

  lemma LineGrows(columns: nat, tokens: seq<Token>, t: Token) returns (longer: seq<Token>)
    requires LinesFit(columns, tokens)
    requires match t
             case Newline => OnLine(tokens) == columns
             case Num(_) => OnLine(tokens) < columns
             case _ => OnLine(tokens) <= columns
    ensures longer == tokens + [t] && LinesFit(columns, longer)
    ensures OnLine(longer) == match t case Newline => 0 case Num(_) => OnLine(tokens) + 1 case _ => OnLine(tokens)
  {
    longer := tokens + [t];
    assert longer[..|tokens|] == tokens;
    var count := OnLine(longer);
    hide OnLine;
    forall k | 0 <= k <= |longer|
      ensures OnLine(longer[..k]) <= columns
      ensures k < |longer| && longer[k] == Newline ==> OnLine(longer[..k]) == columns
    {
      if k <= |tokens| {
        assert longer[..k] == tokens[..k];
        assert tokens[..|tokens|] == tokens;
      } else {
        assert longer[..k] == longer;
      }
    }
  }

  lemma {:induction false} TableLinesFit(columns: nat, values: seq<nat>)
    requires columns >= 1
    ensures LinesFit(columns, Body(columns, values))
    ensures OnLine(Body(columns, values)) == if values == [] then 0 else (|values| - 1) % columns + 1
  {
    hide LinesFit, OnLine, LeadTokens;
    if values == [] {
      NothingFits(columns);
    } else {
      var n := |values| - 1;
      TableLinesFit(columns, values[..n]);
      ValueFits(columns, Body(columns, values[..n]), n, values[n]);
    }
  }

  /** The lines of a printed table: all are full but the last, before the ending. */
  lemma PrintedLinesFit(l: Layout, values: seq<nat>)
    requires l.columns >= 1 && values != []
    ensures var tokens := Lex(Lexer([], Between), Text(l, |values|, values)).tokens;
      |tokens| >= 5 && tokens[|tokens| - 5..] == END && LinesFit(l.columns, tokens[..|tokens| - 5])
  {
    hide Lex, Text, Body, LinesFit;
    LexText(l, |values|, values);
    TableLinesFit(l.columns, values);
    var body := Body(l.columns, values);
    assert (body + END)[..|body + END| - 5] == body && (body + END)[|body + END| - 5..] == END;
  }

  lemma ValueFits(columns: nat, before: seq<Token>, n: nat, v: nat)
    requires columns >= 1 && LinesFit(columns, before)
    requires OnLine(before) == if n == 0 then 0 else (n - 1) % columns + 1
    ensures LinesFit(columns, before + LeadTokens(columns, n) + [Num(v)])
    ensures OnLine(before + LeadTokens(columns, n) + [Num(v)]) == n % columns + 1
  {
    hide LinesFit, OnLine;
    var tokens := before;
    if n > 0 {
      NextColumn(n - 1, columns);
      tokens := LineGrows(columns, tokens, Comma);
      if n % columns == 0 {
        tokens := LineGrows(columns, tokens, Newline);
      }
    }
    assert tokens == before + LeadTokens(columns, n);
    tokens := LineGrows(columns, tokens, Num(v));
  }

  lemma NothingFits(columns: nat)
    ensures LinesFit(columns, []) && OnLine([]) == 0
  {
  }

  lemma {:induction false} HexLength(value: nat, digits: nat)
    requires digits >= 1
    ensures |Hex(value)| <= digits <==> value < Power(16, digits)
  {
    if value >= 16 && digits > 1 {
      HexLength(value / 16, digits - 1);
    } else if digits > 1 {
      assert Power(16, digits) == 16 * Power(16, digits - 1);
    }
  }

  /** A number takes the width set for the table exactly when it fits it. */
  lemma NumeralWidth(value: nat, digits: nat)
    requires digits >= 1
    ensures |Numeral(value, digits)| == digits + 2 <==> value < Power(16, digits)
  {
    HexLength(value, digits);
  }

  // ---------------------------------------------------------------- images

  datatype Pixel = Pixel(red: Byte, green: Byte, blue: Byte)

  /** 24 bits to 16: the upper 5, 6 and 5 bits of each. */
  function Packed(p: Pixel): nat {
    (p.red / 8 * 64 + p.green / 4) * 32 + p.blue / 8
  }

  lemma PackedReadsBack(p: Pixel)
    ensures Packed(p) < Power(16, 4)
    ensures Packed(p) / 32 / 64 == p.red / 8 && Packed(p) / 32 % 64 == p.green / 4 && Packed(p) % 32 == p.blue / 8
  {
    var r, g, b := p.red / 8, p.green / 4, p.blue / 8;
    assert r < 32 && g < 64 && b < 32;
    IndexSplit(32, b, r * 64 + g);
    IndexSplit(64, g, r);
    assert Power(16, 4) == 0x1_0000;
  }

  /** The values of an image, row by row. */
  function RowMajor(width: nat, height: nat, pixels: (nat, nat) -> Pixel): (r: seq<nat>)
    ensures |r| == height * width
  {
    if height == 0 then []
    else
      assert height * width == (height - 1) * width + width;
      RowMajor(width, height - 1, pixels) + Row(width, height - 1, pixels)
  }

  /** The first n values of a row. */
  function Row(n: nat, y: nat, pixels: (nat, nat) -> Pixel): (r: seq<nat>)
    ensures |r| == n && forall x :: 0 <= x < n ==> r[x] == Packed(pixels(x, y))
  {
    if n == 0 then [] else Row(n - 1, y, pixels) + [Packed(pixels(n - 1, y))]
  }

  lemma RowOfNone(before: seq<nat>, y: nat, pixels: (nat, nat) -> Pixel)
    ensures before + Row(0, y, pixels) == before
  {
  }

  lemma RowGrows(before: seq<nat>, n: nat, y: nat, pixels: (nat, nat) -> Pixel)
    ensures before + Row(n + 1, y, pixels) == before + Row(n, y, pixels) + [Packed(pixels(n, y))]
  {
  }

  /** An image is read where it was written: pixel (x, y) is value y * width + x. */
  lemma {:induction false} ImageIsReadWhereWritten(width: nat, height: nat, pixels: (nat, nat) -> Pixel, x: nat, y: nat)
    requires x < width && y < height
    ensures 0 <= y * width + x < height * width
    ensures RowMajor(width, height, pixels)[y * width + x] == Packed(pixels(x, y))
  {
    assert height * width == (height - 1) * width + width;
    if y < height - 1 {
      ImageIsReadWhereWritten(width, height - 1, pixels, x, y);
    }
  }

  /** The pixel loops of outputImageFile, `table` having been made for the size of the image. */
  method OutputImage(table: Table, width: nat, height: nat, pixels: (nat, nat) -> Pixel)
    requires table.View() == Start(table.layout)
    modifies table`out, table`counter, table`column
    ensures table.out == old(table.out) + Text(table.layout, table.limit, RowMajor(width, height, pixels))
  {
    hide Text, Piece;
    TextOfNone(table.layout, table.limit);
    for y := 0 to height
      invariant table.out == old(table.out) + Text(table.layout, table.limit, RowMajor(width, y, pixels))
      invariant table.View() == After(table.layout, y * width)
    {
      OutputRow(table, width, y, pixels, RowMajor(width, y, pixels), old(table.out));
      assert (y + 1) * width == y * width + width;
    }
  }

  /** One row: `before` holds the values of the rows above, written after `text`. */
  method OutputRow(table: Table, width: nat, y: nat, pixels: (nat, nat) -> Pixel, ghost before: seq<nat>,
                   ghost text: string)
    requires table.View() == After(table.layout, |before|)
    requires table.out == text + Text(table.layout, table.limit, before)
    modifies table`out, table`counter, table`column
    ensures table.out == text + Text(table.layout, table.limit, before + Row(width, y, pixels))
    ensures table.View() == After(table.layout, |before| + width)
  {
    hide Text, Piece, After;
    RowOfNone(before, y, pixels);
    for x := 0 to width
      invariant table.out == text + Text(table.layout, table.limit, before + Row(x, y, pixels))
      invariant table.View() == After(table.layout, |before| + x)
    {
      AfterStep(table.layout, |before| + x);
      TextGrows(table.layout, table.limit, before + Row(x, y, pixels), Packed(pixels(x, y)));
      RowGrows(before, x, y, pixels);
      table.Write(Packed(pixels(x, y)));
    }
  }
}
