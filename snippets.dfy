/** The worker's generated Python snippets: how to load the chosen file with
    pandas or with polars and open the same report. Besides the templating,
    this module holds a tiny evaluator of Python string literals, so that what
    a snippet passes to `read_csv` can be compared with the parameter it was
    generated from. */
module Snippets {
  import opened Common
  import opened Events

  datatype Library = Pandas | Polars

  // ---------------------------------------------------------------------
  // The three argument literals of pythonReadFileSnippet
  // ---------------------------------------------------------------------

  /** `sep=` / `separator=`: a tab is written as the escape `'\t'`, anything
      else is put between single quotes as it is. */
  function DelimiterLiteral(delimiter: Option<string>): string
  {
    if delimiter == Some("\t") then "'\\t'" else "'" + JsText(delimiter) + "'"
  }

  /** `escapechar=`: `None` for the "none" sentinel, otherwise always a
      backslash literal, whatever the escape character is. */
  function EscapeLiteral(escape: Option<string>): string
  {
    if escape == Some("none") then "None" else "'\\\\'"
  }

  /** `quotechar=` / `quote_char=`: a double quote, or else a single quote. */
  function QuoteLiteral(quote: Option<string>): string
  {
    if quote == Some("\"") then "'\"'" else "\"'\""
  }

  // The fixed text of the templates, line by line.
  const ParquetPandas: string := "\ndf = pd.read_parquet('"
  const ParquetPolars: string := "\ndf = pl.read_parquet('"
  const ParquetTail: string := "')\n"
  const CsvPandas: string := "\ndf = pd.read_csv(\n    '"
  const CsvPolars: string := "\ndf = pl.read_csv(\n    '"
  const EncodingArg: string := "',\n    encoding='"
  const SepArg: string := "',\n    sep="
  const SeparatorArg: string := "',\n    separator="
  const QuotecharArg: string := ",\n    quotechar="
  const QuoteCharArg: string := ",\n    quote_char="
  const EscapecharArg: string := ",\n    escapechar="
  const CallTail: string := ",\n)\n"
  const PandasImports: string := "import pandas as pd\nfrom skrub import TableReport\n\n"
  const PolarsImports: string := "import polars as pl\nfrom skrub import TableReport\n\n"
  const ReportHead: string := "\nreport = TableReport(df, title='"
  const ReportTail: string := "')\nreport.open()\n"

  /** `pythonReadFileSnippet(fileInfo, csvParams, moduleName)`. `None` stands
      for the TypeError JavaScript raises when a CSV file has no parameter
      object to read `delimiter` from. */
  function ReadFileSnippet(fileInfo: FileInfo, csvParams: Option<map<string, string>>, library: Library): (r: Option<string>)
    ensures r.None? <==> !fileInfo.isParquet && csvParams.None?
  {
    if fileInfo.isParquet then
      match library
      case Pandas => Some(ParquetPandas + fileInfo.name + ParquetTail)
      case Polars => Some(ParquetPolars + fileInfo.name + ParquetTail)
    else if csvParams.None? then None
    else
      var params := csvParams.value;
      var delimiter := DelimiterLiteral(Get(params, "delimiter"));
      var escape := EscapeLiteral(Get(params, "escape"));
      var quote := QuoteLiteral(Get(params, "quote"));
      var encoding := JsText(Get(params, "encoding"));
      match library
      case Pandas =>
        Some(CsvPandas + fileInfo.name + EncodingArg + encoding + SepArg + delimiter
             + QuotecharArg + quote + EscapecharArg + escape + CallTail)
      case Polars =>
        Some(CsvPolars + fileInfo.name + EncodingArg + encoding + SeparatorArg + delimiter
             + QuoteCharArg + quote + CallTail)
  }

  /** `pythonSnippets(fileInfo, csvParams)`. `None` stands for the TypeError
      raised when there is no file information, or no parameters for a CSV. */
  function PythonSnippets(fileInfo: Option<FileInfo>, csvParams: Option<map<string, string>>): (r: Option<Snippets>)
    ensures r.Some? <==> fileInfo.Some? && (fileInfo.value.isParquet || csvParams.Some?)
    ensures r.Some? ==> r.value.warningEscapeChar ==>
      !fileInfo.value.isParquet && Get(csvParams.value, "escape") != Some("none")
  {
    if fileInfo.None? then None
    else
      var info := fileInfo.value;
      var reportGen := ReportHead + info.name + ReportTail;
      var pandasRead := ReadFileSnippet(info, csvParams, Pandas);
      var polarsRead := ReadFileSnippet(info, csvParams, Polars);
      if pandasRead.None? || polarsRead.None? then None
      else
        Some(Snippets(
          PandasImports + pandasRead.value + reportGen,
          PolarsImports + polarsRead.value + reportGen,
          !info.isParquet && Get(csvParams.value, "escape") != Some("none")))
  }

  // ---------------------------------------------------------------------
  // Properties of the templating
  // ---------------------------------------------------------------------

  /** The polars snippet does not depend on the escape parameter at all. */
  lemma PolarsIgnoresEscape(fileInfo: FileInfo, params: map<string, string>, escape: string)
    ensures ReadFileSnippet(fileInfo, Some(params), Polars)
         == ReadFileSnippet(fileInfo, Some(params["escape" := escape]), Polars)
  {
    var other := params["escape" := escape];
    assert Get(other, "delimiter") == Get(params, "delimiter");
    assert Get(other, "quote") == Get(params, "quote");
    assert Get(other, "encoding") == Get(params, "encoding");
  }

  /** A parquet file's snippets ignore the csv parameters, defined or not, and
      never warn about an escape character. */
  lemma ParquetIgnoresParams(fileInfo: FileInfo, p1: Option<map<string, string>>, p2: Option<map<string, string>>)
    requires fileInfo.isParquet
    ensures PythonSnippets(Some(fileInfo), p1) == PythonSnippets(Some(fileInfo), p2)
    ensures PythonSnippets(Some(fileInfo), p1).Some?
    ensures !PythonSnippets(Some(fileInfo), p1).value.warningEscapeChar
  {
  }

  // ---------------------------------------------------------------------
  // What the generated literals denote in Python
  // ---------------------------------------------------------------------

  datatype PyValue = PyNone | PyStr(s: string)

  /** The value of a one-character escape `\c` in a Python string: the
      backslash-newline continuation, the quotes and the backslash, and the
      seven control-character escapes. Any other character is not one. */
  function SimpleEscape(c: char): Option<string>
  {
    match c
    case '\n' => Some([])
    case '\\' => Some([c])
    case '\'' => Some([c])
    case '"' => Some([c])
    case 'a' => Some("\U{7}")
    case 'b' => Some("\U{8}")
    case 'f' => Some("\U{c}")
    case 'n' => Some("\n")
    case 'r' => Some("\r")
    case 't' => Some("\t")
    case 'v' => Some("\U{b}")
    case _ => None
  }

  predicate IsOctal(c: char)
  {
    '0' <= c <= '7'
  }

  predicate IsHex(c: char)
  {
    '0' <= c <= '9' || 'a' <= c <= 'f' || 'A' <= c <= 'F'
  }

  function HexDigit(c: char): (d: nat)
    requires IsHex(c)
    ensures d < 16
  {
    if c <= '9' then c as int - '0' as int
    else if c <= 'F' then c as int - 'A' as int + 10
    else c as int - 'a' as int + 10
  }

  /** The escape sequence at the start of `s`, which begins with a backslash:
      its value and its length, or `None` when Python rejects it. Octal takes
      one to three digits and `\x` exactly two hex digits. A backslash
      before a carriage return (alone or followed by a newline) continues the
      line, as before a newline. A NUL byte is refused anywhere in Python
      source. An unknown escape keeps its backslash. `\N{...}`, `\u` and
      `\U` are not evaluated here and give `None` as well. */
  function Escape(s: string): (r: Option<(string, nat)>)
    requires |s| >= 2 && s[0] == '\\'
    ensures r.Some? ==> 2 <= r.value.1 <= |s|
  {
    var c := s[1];
    if SimpleEscape(c).Some? then Some((SimpleEscape(c).value, 2))
    else if c == '\r' then
      if |s| >= 3 && s[2] == '\n' then Some(([], 3)) else Some(([], 2))
    else if c == '\U{0}' then None
    else if IsOctal(c) then
      var d1 := c as int - '0' as int;
      if |s| >= 3 && IsOctal(s[2]) then
        var d2 := s[2] as int - '0' as int;
        if |s| >= 4 && IsOctal(s[3]) then
          var d3 := s[3] as int - '0' as int;
          Some(([(d1 * 64 + d2 * 8 + d3) as char], 4))
        else Some(([(d1 * 8 + d2) as char], 3))
      else Some(([d1 as char], 2))
    else if c == 'x' then
      if |s| >= 4 && IsHex(s[2]) && IsHex(s[3]) then
        Some(([(HexDigit(s[2]) * 16 + HexDigit(s[3])) as char], 4))
      else None
    else if c == 'N' || c == 'u' || c == 'U' then None
    else Some((['\\', c], 2))
  }

  /** A character that cannot appear unescaped inside a one-line Python
      string: a line break (Python reads a carriage return as one) or a NUL
      byte, which Python refuses in source code. */
  predicate LineBreakOrNul(c: char)
  {
    c == '\n' || c == '\r' || c == '\U{0}'
  }

  /** The contents of a Python string literal delimited by `q`, or `None` for
      a syntax error (an unescaped delimiter or line break, carriage returns
      included, a NUL byte, a backslash that escapes the closing quote, a
      malformed escape). */
  function Unquote(body: string, q: char): Option<string>
    decreases |body|
  {
    if body == [] then Some([])
    else if body[0] == q || LineBreakOrNul(body[0]) then None
    else if body[0] == '\\' then
      if |body| < 2 then None
      else
        match Escape(body)
        case None => None
        case Some((value, n)) =>
          match Unquote(body[n..], q)
          case None => None
          case Some(rest) => Some(value + rest)
    else
      match Unquote(body[1..], q)
      case None => None
      case Some(rest) => Some([body[0]] + rest)
  }

  /** The value of a Python literal that is `None` or a plain string. */
  function PyLiteral(lit: string): Option<PyValue>
  {
    if lit == "None" then Some(PyNone)
    else if |lit| >= 2 && (lit[0] == '\'' || lit[0] == '"') && lit[|lit| - 1] == lit[0] then
      match Unquote(lit[1..|lit| - 1], lit[0])
      case None => None
      case Some(s) => Some(PyStr(s))
    else None
  }

  /** Text that needs no escaping inside single quotes. */
  predicate PlainText(s: string)
  {
    '\\' !in s && '\'' !in s && forall i :: 0 <= i < |s| ==> !LineBreakOrNul(s[i])
  }

  lemma {:induction false} UnquotePlain(s: string)
    requires PlainText(s)
    ensures Unquote(s, '\'') == Some(s)
  {
    if s != [] {
      UnquotePlain(s[1..]);
      assert [s[0]] + s[1..] == s;
    }
  }

  /** Put between single quotes, plain text denotes itself. */
  lemma SingleQuotedDenotes(s: string)
    requires PlainText(s)
    ensures PyLiteral("'" + s + "'") == Some(PyStr(s))
  {
    var lit := "'" + s + "'";
    assert lit[1..|lit| - 1] == s;
    UnquotePlain(s);
  }

  /** The literal `q\cq` holding one escape sequence, and what it denotes. */
  lemma QuotedEscapeIs(q: char, c: char, value: Option<string>)
    requires q == '\'' || q == '"'
    requires Escape(['\\', c]) == if value.Some? then Some((value.value, 2)) else None
    ensures PyLiteral([q, '\\', c, q]) == if value.Some? then Some(PyStr(value.value)) else None
  {
    var lit: string := [q, '\\', c, q];
    var body: string := ['\\', c];
    assert lit[1..|lit| - 1] == body;
    assert body[0] != q && body[0] != '\n';
    assert body[2..] == [];
    assert Unquote(body[2..], q) == Some([]);
    assert lit[0] != "None"[0];
    if value.Some? {
      assert value.value + [] == value.value;
    }
  }

  /** A quoted one-character escape denotes the escape's value. */
  lemma QuotedEscapeDenotes(q: char, c: char)
    requires q == '\'' || q == '"'
    requires SimpleEscape(c).Some?
    ensures PyLiteral([q, '\\', c, q]) == Some(PyStr(SimpleEscape(c).value))
  {
    QuotedEscapeIs(q, c, SimpleEscape(c));
  }

  /** An unknown escape keeps its backslash: `'\q'` is two characters. */
  lemma QuotedUnknownEscape(q: char, c: char)
    requires q == '\'' || q == '"'
    requires SimpleEscape(c).None? && !IsOctal(c) && c !in "xNuU" && !LineBreakOrNul(c)
    ensures PyLiteral([q, '\\', c, q]) == Some(PyStr(['\\', c]))
  {
    QuotedEscapeIs(q, c, Some(['\\', c]));
  }

  /** A single octal digit escape denotes the character with that code. */
  lemma QuotedOctalDigit(q: char, c: char)
    requires q == '\'' || q == '"'
    requires IsOctal(c)
    ensures PyLiteral([q, '\\', c, q]) == Some(PyStr([(c as int - '0' as int) as char]))
  {
    QuotedEscapeIs(q, c, Some([(c as int - '0' as int) as char]));
  }

  /** `\x` without its two hex digits is a syntax error. */
  lemma QuotedBareHexRejected(q: char)
    requires q == '\'' || q == '"'
    ensures PyLiteral([q, '\\', 'x', q]).None?
  {
    QuotedEscapeIs(q, 'x', None);
  }

  /** A quoted single ordinary character denotes itself. */
  lemma QuotedCharDenotes(q: char, c: char)
    requires q == '\'' || q == '"'
    requires c != q && c != '\\' && !LineBreakOrNul(c)
    ensures PyLiteral([q, c, q]) == Some(PyStr([c]))
  {
    var lit: string := [q, c, q];
    var body: string := [c];
    assert lit[1..|lit| - 1] == body;
    assert body[1..] == [];
    assert Unquote(body[1..], q) == Some([]);
    assert [c] + [] == [c];
    assert Unquote(body, q) == Some([c]);
    assert |lit| != |"None"|;
  }

  /** The separator a snippet passes is the delimiter it was made from, for a
      tab and for every delimiter that needs no escaping. */
  lemma DelimiterLiteralDenotes(delimiter: string)
    requires delimiter == "\t" || PlainText(delimiter)
    ensures PyLiteral(DelimiterLiteral(Some(delimiter))) == Some(PyStr(delimiter))
  {
    if delimiter != "\t" {
      SingleQuotedDenotes(delimiter);
    } else {
      QuotedEscapeDenotes('\'', 't');
      assert DelimiterLiteral(Some(delimiter)) == ['\'', '\\', 't', '\''];
    }
  }

  /** A delimiter without backslashes that holds a line break or a NUL byte
      makes the separator literal a syntax error: the snippet does not
      escape it. */
  lemma DelimiterLiteralBreaks(delimiter: string, i: nat)
    requires i < |delimiter| && LineBreakOrNul(delimiter[i]) && '\\' !in delimiter
    ensures PyLiteral(DelimiterLiteral(Some(delimiter))).None?
  {
    var lit := DelimiterLiteral(Some(delimiter));
    assert delimiter != "\t";
    assert lit == "'" + delimiter + "'";
    assert lit[1..|lit| - 1] == delimiter;
    UnquoteBreaks(delimiter, i);
  }

  lemma {:induction false} UnquoteBreaks(s: string, i: nat)
    requires i < |s| && LineBreakOrNul(s[i]) && '\\' !in s
    ensures Unquote(s, '\'').None?
    decreases |s|
  {
    if s[0] != '\'' && !LineBreakOrNul(s[0]) {
      assert i > 0;
      assert s[1..][i - 1] == s[i];
      UnquoteBreaks(s[1..], i - 1);
    }
  }

  /** The escape literal is Python's `None` for "none" and a single backslash
      for every other value. */
  lemma EscapeLiteralDenotes(escape: Option<string>)
    ensures PyLiteral(EscapeLiteral(escape))
         == Some(if escape == Some("none") then PyNone else PyStr("\\"))
  {
    QuotedEscapeDenotes('\'', '\\');
    assert "'\\\\'" == ['\'', '\\', '\\', '\''];
  }

  /** The quote literal is a double quote for `"` and a single quote for
      every other value. */
  lemma QuoteLiteralDenotes(quote: Option<string>)
    ensures PyLiteral(QuoteLiteral(quote))
         == Some(PyStr(if quote == Some("\"") then "\"" else "'"))
  {
    QuotedCharDenotes('\'', '"');
    QuotedCharDenotes('"', '\'');
    assert "'\"'" == ['\'', '"', '\''];
    assert "\"'\"" == ['"', '\'', '"'];
  }

  /** So the quote character survives into the snippet exactly when it is one
      of the two quote characters. */
  lemma QuoteLiteralFaithful(quote: string)
    ensures PyLiteral(QuoteLiteral(Some(quote))) == Some(PyStr(quote)) <==> quote == "\"" || quote == "'"
  {
    QuoteLiteralDenotes(Some(quote));
  }
}
