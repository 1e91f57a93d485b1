/** The CSV loader: the text of the livestock file is cut into lines, the
    header line is skipped, blank lines are skipped, and every other line
    becomes one row whose fifth field is the count (`NA` for none). */
module DataLoader {
  import opened Common
  import opened Database

  // ---------------------------------------------------------------------
  // String.prototype.split with a one-character separator

  /** The pieces of `s` between occurrences of `sep`; an empty string and a
      string without `sep` give one piece. */
  function Split(s: string, sep: char): (r: seq<string>)
    ensures |r| >= 1
    ensures forall i :: 0 <= i < |r| ==> sep !in r[i]
    decreases |s|
  {
    if sep !in s then [s]
    else
      var i := FirstIndex(s, sep);
      [s[..i]] + Split(s[i + 1..], sep)
  }

  /** Array.prototype.join with a one-character separator. */
  function Join(parts: seq<string>, sep: char): string
  {
    if parts == [] then []
    else if |parts| == 1 then parts[0]
    else parts[0] + [sep] + Join(parts[1..], sep)
  }

  /** Splitting loses nothing: joining the pieces gives the text back. */
  lemma {:induction false} JoinSplit(s: string, sep: char)
    ensures Join(Split(s, sep), sep) == s
    decreases |s|
  {
    if sep in s {
      var i := FirstIndex(s, sep);
      var rest := Split(s[i + 1..], sep);
      JoinSplit(s[i + 1..], sep);
      var parts := Split(s, sep);
      assert parts == [s[..i]] + rest;
      assert parts[0] == s[..i] && parts[1..] == rest && |parts| > 1;
      assert Join(parts, sep) == s[..i] + [sep] + Join(rest, sep);
      CutAt(s, i);
    }
  }

  /** A sequence is its part before `i`, its element at `i`, and the rest. */
  lemma CutAt<T>(s: seq<T>, i: nat)
    requires i < |s|
    ensures s == s[..i] + [s[i]] + s[i + 1..]
  {
  }

  /** Joining pieces that do not contain the separator and splitting again
      gives the pieces back. */
  lemma {:induction false} SplitJoin(parts: seq<string>, sep: char)
    requires |parts| >= 1
    requires forall i :: 0 <= i < |parts| ==> sep !in parts[i]
    ensures Split(Join(parts, sep), sep) == parts
    decreases |parts|
  {
    if |parts| > 1 {
      SplitJoin(parts[1..], sep);
      SplitCons(parts[0], sep, Join(parts[1..], sep));
      assert parts == [parts[0]] + parts[1..];
    }
  }

  /** Text before the first separator is the first piece. */
  lemma SplitCons(a: string, sep: char, rest: string)
    requires sep !in a
    ensures Split(a + [sep] + rest, sep) == [a] + Split(rest, sep)
  {
    var s := a + [sep] + rest;
    assert s[|a|] == sep;
    var i := FirstIndex(s, sep);
    assert s[..|a|] == a;
    assert s[|a| + 1..] == rest;
  }

  // ---------------------------------------------------------------------
  // String.prototype.trim

  /** The characters `trim` removes: the ECMAScript WhiteSpace (tab,
      vertical tab, form feed, space, no-break space, the byte order mark and
      the Unicode space separators) and LineTerminator characters. */
  predicate IsWhitespace(c: char)
  {
    || c == '\t' || c == '\n' || c == '\U{000B}' || c == '\U{000C}' || c == '\r' || c == ' '
    || c == '\U{00A0}' || c == '\U{1680}' || ('\U{2000}' <= c <= '\U{200A}')
    || c == '\U{2028}' || c == '\U{2029}' || c == '\U{202F}' || c == '\U{205F}'
    || c == '\U{3000}' || c == '\U{FEFF}'
  }

  /** The number of white space characters `s` starts with. */
  function LeadingSpace(s: string): (n: nat)
    ensures n <= |s|
  {
    if s != [] && IsWhitespace(s[0]) then 1 + LeadingSpace(s[1..]) else 0
  }

  /** The number of white space characters `s` ends with. */
  function TrailingSpace(s: string): (n: nat)
    ensures n <= |s|
  {
    if s != [] && IsWhitespace(s[|s| - 1]) then 1 + TrailingSpace(s[..|s| - 1]) else 0
  }

  /** `s` without its leading white space. */
  function TrimStart(s: string): string
  {
    s[LeadingSpace(s)..]
  }

  /** `s` without its trailing white space. */
  function TrimEnd(s: string): string
  {
    s[..|s| - TrailingSpace(s)]
  }

  /** `String.prototype.trim`: what is left neither starts nor ends with
      white space. */
  function Trim(s: string): (r: string)
    ensures |r| <= |s|
    ensures r != [] ==> !IsWhitespace(r[0]) && !IsWhitespace(r[|r| - 1])
  {
    LeadingSpaceSpec(s);
    TrailingSpaceSpec(TrimStart(s));
    TrimEnd(TrimStart(s))
  }

  /** The leading run is white space and is followed by a character that is
      not, or by the end of `s`. */
  lemma {:induction false} LeadingSpaceSpec(s: string)
    ensures forall i :: 0 <= i < LeadingSpace(s) ==> IsWhitespace(s[i])
    ensures LeadingSpace(s) == |s| || !IsWhitespace(s[LeadingSpace(s)])
  {
    if s != [] && IsWhitespace(s[0]) {
      LeadingSpaceSpec(s[1..]);
    }
  }

  /** The trailing run is white space and is preceded by a character that is
      not, or by the start of `s`. */
  lemma {:induction false} TrailingSpaceSpec(s: string)
    ensures forall i :: |s| - TrailingSpace(s) <= i < |s| ==> IsWhitespace(s[i])
    ensures TrailingSpace(s) == |s| || !IsWhitespace(s[|s| - TrailingSpace(s) - 1])
  {
    if s != [] && IsWhitespace(s[|s| - 1]) {
      TrailingSpaceSpec(s[..|s| - 1]);
    }
  }

  /** A line is blank (`!line.trim()` holds) exactly when every character
      of it is white space. */
  lemma TrimEmpty(s: string)
    ensures Trim(s) == [] <==> forall i :: 0 <= i < |s| ==> IsWhitespace(s[i])
  {
    LeadingSpaceSpec(s);
    var t := TrimStart(s);
    TrailingSpaceSpec(t);
  }

  // ---------------------------------------------------------------------
  // parseInt(s, 10)

  predicate IsDigit(c: char)
  {
    '0' <= c <= '9'
  }

  /** The number of decimal digits `s` starts with. */
  function LeadingDigits(s: string): (n: nat)
    ensures n <= |s|
  {
    if s != [] && IsDigit(s[0]) then 1 + LeadingDigits(s[1..]) else 0
  }

  /** The value of a string of decimal digits. */
  function DigitsValue(ds: string): int
  {
    if ds == [] then 0
    else DigitsValue(ds[..|ds| - 1]) * 10 + (ds[|ds| - 1] as int - '0' as int)
  }

  /** The value of the longest run of digits `s` starts with, if any. */
  function ReadDigits(s: string): Option<int>
  {
    var n := LeadingDigits(s);
    if n == 0 then None else Some(DigitsValue(s[..n]))
  }

  /** `parseInt` after the white space: one optional sign, then the digits;
      with no digit the result is NaN. */
  function ParseSigned(t: string): Count
  {
    var negative := t != [] && t[0] == '-';
    var body := if t != [] && (t[0] == '-' || t[0] == '+') then t[1..] else t;
    match ReadDigits(body)
    case None => NaN
    case Some(v) => Int(if negative then -v else v)
  }

  /** `parseInt(s, 10)`: leading white space is skipped, one sign is read,
      then the longest run of digits; with no digit the result is NaN. */
  function ParseInt(s: string): (r: Count)
    ensures r != Null
  {
    ParseSigned(TrimStart(s))
  }

  /** The decimal numeral of `n`. */
  function NatToString(n: nat): (r: string)
    ensures |r| >= 1 && forall i :: 0 <= i < |r| ==> IsDigit(r[i])
  {
    if n < 10 then [('0' as int + n) as char]
    else NatToString(n / 10) + [('0' as int + n % 10) as char]
  }

  /** `String(n)` for an integer `n`. */
  function IntToString(n: int): string
  {
    if n < 0 then ['-'] + NatToString(-n) else NatToString(n)
  }

  lemma {:induction false} DigitsValueOf(n: nat)
    ensures DigitsValue(NatToString(n)) == n
  {
    if n >= 10 {
      var s := NatToString(n);
      DigitsValueOf(n / 10);
      assert s[..|s| - 1] == NatToString(n / 10);
    }
  }

  lemma {:induction false} LeadingDigitsOf(ds: string, t: string)
    requires forall i :: 0 <= i < |ds| ==> IsDigit(ds[i])
    requires t == [] || !IsDigit(t[0])
    ensures LeadingDigits(ds + t) == |ds|
  {
    if ds != [] {
      assert (ds + t)[1..] == ds[1..] + t;
      LeadingDigitsOf(ds[1..], t);
    }
  }

  /** `parseInt` reads back the numeral of any integer, also when the
      numeral is followed by text that does not start with a digit (such as
      the carriage return a CRLF line ends with). */
  lemma ParseIntNumeral(n: int, t: string)
    requires t == [] || !IsDigit(t[0])
    ensures ParseInt(IntToString(n) + t) == Int(n)
  {
    if n < 0 {
      DigitsValueOf(-n);
      ParseIntNegative(NatToString(-n), t);
    } else {
      DigitsValueOf(n);
      ParseIntDigits(NatToString(n), t);
    }
  }

  /** A run of digits followed by text that does not go on with a digit
      reads as the run's value. */
  lemma ReadDigitsRun(ds: string, t: string)
    requires ds != [] && forall i :: 0 <= i < |ds| ==> IsDigit(ds[i])
    requires t == [] || !IsDigit(t[0])
    ensures ReadDigits(ds + t) == Some(DigitsValue(ds))
  {
    LeadingDigitsOf(ds, t);
    assert (ds + t)[..|ds|] == ds;
  }

  lemma ParseIntDigits(ds: string, t: string)
    requires ds != [] && forall i :: 0 <= i < |ds| ==> IsDigit(ds[i])
    requires t == [] || !IsDigit(t[0])
    ensures ParseInt(ds + t) == Int(DigitsValue(ds))
  {
    ReadDigitsRun(ds, t);
    assert (ds + t)[0] == ds[0];
    TrimStartNoop(ds + t);
  }

  /** The same run after a minus sign reads as the negated value. */
  lemma ParseIntNegative(ds: string, t: string)
    requires ds != [] && forall i :: 0 <= i < |ds| ==> IsDigit(ds[i])
    requires t == [] || !IsDigit(t[0])
    ensures ParseInt(['-'] + ds + t) == Int(-DigitsValue(ds))
  {
    var s := ['-'] + ds + t;
    TailOfCons('-', ds, t);
    ReadDigitsRun(ds, t);
    ParseSignedMinus(s, DigitsValue(ds));
    TrimStartNoop(s);
  }

  lemma TailOfCons(c: char, a: string, b: string)
    ensures ([c] + a + b)[0] == c && ([c] + a + b)[1..] == a + b
  {
  }

  lemma ParseSignedMinus(s: string, v: int)
    requires s != [] && s[0] == '-' && ReadDigits(s[1..]) == Some(v)
    ensures ParseSigned(s) == Int(-v)
  {
  }

  lemma TrimStartNoop(s: string)
    requires s == [] || !IsWhitespace(s[0])
    ensures TrimStart(s) == s
  {
    assert LeadingSpace(s) == 0;
  }

  // ---------------------------------------------------------------------
  // One line, one row

  /** The i-th comma-separated field; a missing field, `undefined` in
      JavaScript, reads as empty here. */
  function Field(values: seq<string>, i: nat): string
  {
    if i < |values| then values[i] else ""
  }

  /** The count field: null for exactly `NA`, otherwise `parseInt`. */
  function ParseCount(field: string): (r: Count)
    ensures r == Null <==> field == "NA"
    ensures field != "NA" ==> r == ParseInt(field)
  {
    if field == "NA" then Null else ParseInt(field)
  }

  /** The row a line gives: fields 0 to 3 in order, then the count. */
  function ParseRow(line: string): (r: LivestockData)
    ensures ',' !in r.geographyType && ',' !in r.geographyName && ',' !in r.year && ',' !in r.animal
  {
    var values := Split(line, ',');
    LivestockData(Field(values, 0), Field(values, 1), Field(values, 2), Field(values, 3),
                  ParseCount(Field(values, 4)))
  }

  /** A line made of comma-free fields gives back its first four fields in
      order and the count of its fifth; fields after the fifth are ignored. */
  lemma ParseRowFields(fields: seq<string>)
    requires |fields| >= 5 && forall i :: 0 <= i < |fields| ==> ',' !in fields[i]
    ensures ParseRow(Join(fields, ',')) ==
              LivestockData(fields[0], fields[1], fields[2], fields[3], ParseCount(fields[4]))
  {
    SplitJoin(fields, ',');
  }

  // ---------------------------------------------------------------------
  // The whole file

  /** The lines that are not blank, in order. */
  function NonBlank(lines: seq<string>): seq<string>
  {
    if lines == [] then []
    else
      var x := lines[|lines| - 1];
      NonBlank(lines[..|lines| - 1]) + (if Trim(x) != [] then [x] else [])
  }

  /** NonBlank keeps exactly the lines that are not blank. */
  lemma {:induction false} NonBlankMembers(lines: seq<string>)
    ensures forall x :: x in NonBlank(lines) <==> x in lines && Trim(x) != []
  {
    if lines != [] {
      var x := lines[|lines| - 1];
      NonBlankMembers(lines[..|lines| - 1]);
      assert lines == lines[..|lines| - 1] + [x];
    }
  }

  /** The rows the loop builds from `lines`: one per line, blank lines
      skipped. */
  function Records(lines: seq<string>): (r: seq<LivestockData>)
    ensures |r| <= |lines|
  {
    if lines == [] then []
    else
      var x := lines[|lines| - 1];
      Records(lines[..|lines| - 1]) + (if Trim(x) == [] then [] else [ParseRow(x)])
  }

  /** The rows are the non-blank lines, parsed one for one and in order. */
  lemma {:induction false} RecordsOfNonBlank(lines: seq<string>)
    ensures |Records(lines)| == |NonBlank(lines)|
    ensures forall k :: 0 <= k < |Records(lines)| ==> Records(lines)[k] == ParseRow(NonBlank(lines)[k])
  {
    if lines != [] {
      RecordsOfNonBlank(lines[..|lines| - 1]);
    }
  }

  /** The rows of a file: the lines after the first (the header). */
  function ParsedFile(csvText: string): (r: seq<LivestockData>)
    ensures |r| <= |Split(csvText, '\n')| - 1
  {
    Records(Split(csvText, '\n')[1..])
  }

  /** The first line is the header and gives no row: a file is parsed as
      the lines after its first line break. */
  lemma HeaderSkipped(header: string, body: string)
    requires '\n' !in header
    ensures ParsedFile(header + ['\n'] + body) == Records(Split(body, '\n'))
  {
    SplitCons(header, '\n', body);
  }

  /** The parsing loop of `loadData`: the header is skipped, blank lines are
      skipped, every other line is pushed as its row. */
  method ParseCsv(csvText: string) returns (data: seq<LivestockData>)
    ensures data == ParsedFile(csvText)
  {
    var rows := Split(csvText, '\n');
    data := [];
    var i := 1;
    while i < |rows|
      invariant 1 <= i <= |rows|
      invariant data == Records(rows[1..i])
    {
      RecordsStep(rows, i);
      if Trim(rows[i]) == [] {
        i := i + 1;
        continue;
      }
      data := data + [ParseRow(rows[i])];
      i := i + 1;
    }
    assert rows[1..i] == rows[1..];
  }

  /** One more line adds its row unless it is blank. */
  lemma RecordsStep(rows: seq<string>, i: nat)
    requires 1 <= i < |rows|
    ensures Records(rows[1..i + 1])
            == Records(rows[1..i]) + (if Trim(rows[i]) == [] then [] else [ParseRow(rows[i])])
  {
    var lines := rows[1..i + 1];
    assert lines[..|lines| - 1] == rows[1..i];
  }

  /** `loadData` once the file's text is at hand: the parsed rows replace
      the store's rows in one step, after the loop, and the load reports
      success. */
  method LoadData(store: Store, csvText: string) returns (ok: bool)
    modifies store
    ensures store.rawData == ParsedFile(csvText)
    ensures store.currentData == old(store.currentData)
    ensures ok
  {
    var data := ParseCsv(csvText);
    store.SetRawData(data);
    return true;
  }
}
