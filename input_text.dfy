/**
 * The picker's text field: the text shown for `[startD, endD]` (the present
 * days, each `YYYY/MM/DD`, joined by " - ") and the reading of typed text
 * (split on '-', each piece trimmed, empty pieces dropped, the first two pieces
 * parsed strictly).
 */
module InputText {
  import opened Wrappers
  import opened Calendar
  import opened DateText

  /** JavaScript's `split(sep)` on a one-character separator: always at least one piece. */
  function Split(s: string, sep: char): (parts: seq<string>)
    ensures |parts| >= 1
  {
    if s == [] then [""]
    else
      var rest := Split(s[1..], sep);
      if s[0] == sep then [""] + rest else [[s[0]] + rest[0]] + rest[1..]
  }

  /** The characters JavaScript's `trim` removes: white space and line terminators. */
  predicate IsSpace(c: char) {
    c == ' ' || c == '\t' || c == '\n' || c == '\r' || c == '\U{000B}' || c == '\U{000C}'
    || c == '\U{00A0}' || c == '\U{1680}' || ('\U{2000}' <= c <= '\U{200A}')
    || c == '\U{2028}' || c == '\U{2029}' || c == '\U{202F}' || c == '\U{205F}'
    || c == '\U{3000}' || c == '\U{FEFF}'
  }

  function TrimStart(s: string): string {
    if s != [] && IsSpace(s[0]) then TrimStart(s[1..]) else s
  }

  function TrimEnd(s: string): string {
    if s != [] && IsSpace(s[|s| - 1]) then TrimEnd(s[..|s| - 1]) else s
  }

  function Trim(s: string): string {
    TrimEnd(TrimStart(s))
  }

  function TrimAll(parts: seq<string>): (r: seq<string>)
    ensures |r| == |parts|
  {
    if parts == [] then [] else [Trim(parts[0])] + TrimAll(parts[1..])
  }

  /** `filter(Boolean)` on strings: drops the empty ones. */
  function NonEmpty(parts: seq<string>): seq<string> {
    if parts == [] then []
    else if parts[0] == "" then NonEmpty(parts[1..])
    else [parts[0]] + NonEmpty(parts[1..])
  }

  /** The pieces of typed text the handler looks at. */
  function Tokens(text: string): seq<string> {
    NonEmpty(TrimAll(Split(text, '-')))
  }

  /** Destructuring `[a, b] = tokens`: a missing element is `undefined`. */
  function TokenAt(tokens: seq<string>, i: nat): Option<string> {
    if i < |tokens| then Some(tokens[i]) else None
  }

  /**
   * The text field's reading of typed text: the two days when both of the first
   * two tokens parse strictly, None (the text is ignored) otherwise.
   */
  function ParseInput(text: string): Option<(Day, Day)> {
    var tokens := Tokens(text);
    var start := ParseMaybe(TokenAt(tokens, 0));
    var end := ParseMaybe(TokenAt(tokens, 1));
    if start.Some? && end.Some? then Some((start.value, end.value)) else None
  }

  /** `filter(Boolean)` on days: keeps the present ones. */
  function Present(days: seq<Option<Day>>): seq<Day> {
    if days == [] then []
    else if days[0].None? then Present(days[1..])
    else [days[0].value] + Present(days[1..])
  }

  function FormatAll(days: seq<Day>): (r: seq<string>)
    ensures |r| == |days|
  {
    if days == [] then [] else [FormatDay(days[0])] + FormatAll(days[1..])
  }

  /** `join(sep)`. */
  function Join(parts: seq<string>, sep: string): string {
    if parts == [] then ""
    else if |parts| == 1 then parts[0]
    else parts[0] + sep + Join(parts[1..], sep)
  }

  /** The value the text field shows for `[startD, endD]` while the user is not typing. */
  function DisplayText(startD: Option<Day>, endD: Option<Day>): string {
    Join(FormatAll(Present([startD, endD])), " - ")
  }

  // ---------------------------------------------------------------------------
  // What the text field shows, and reading it back

  /** The characters a formatted day is made of: digits and '/', beginning and ending with a digit. */
  lemma FormatChars(d: Day)
    ensures var s := FormatDay(d);
      |s| >= 5 && IsDigit(s[0]) && IsDigit(s[|s| - 1])
      && forall i :: 0 <= i < |s| ==> IsDigit(s[i]) || s[i] == '/'
  {
    var c := ToCivil(d);
    var y, m, dd := ZeroFill(c.year, 4), ZeroFill(c.month, 2), ZeroFill(c.day, 2);
    assert |y| >= 1 && |m| >= 1 && |dd| >= 1;
    var s := y + "/" + m + "/" + dd;
    assert s == FormatDay(d);
    forall i | 0 <= i < |s| ensures IsDigit(s[i]) || s[i] == '/' {
      if i < |y| {
        assert s[i] == y[i];
      } else if i == |y| || i == |y| + |m| + 1 {
      } else if i < |y| + 1 + |m| {
        assert s[i] == m[i - |y| - 1];
      } else {
        assert s[i] == dd[i - |y| - |m| - 2];
      }
    }
  }

  /** A piece without the separator is not split. */
  lemma {:induction false} SplitWhole(a: string, sep: char)
    requires forall i :: 0 <= i < |a| ==> a[i] != sep
    ensures Split(a, sep) == [a]
  {
    if a != [] {
      SplitWhole(a[1..], sep);
      assert [a[0]] + a[1..] == a;
    }
  }

  /** Splitting at the first separator. */
  lemma {:induction false} SplitFirst(a: string, sep: char, b: string)
    requires forall i :: 0 <= i < |a| ==> a[i] != sep
    ensures Split(a + [sep] + b, sep) == [a] + Split(b, sep)
  {
    if a == [] {
      assert a + [sep] + b == [sep] + b;
      assert ([sep] + b)[1..] == b;
    } else {
      var s := a + [sep] + b;
      assert s[1..] == a[1..] + [sep] + b;
      SplitFirst(a[1..], sep, b);
      assert [a[0]] + a[1..] == a;
    }
  }

  lemma {:induction false} TrimStartKeeps(s: string)
    requires s != [] && !IsSpace(s[0])
    ensures TrimStart(s) == s
  {
  }

  lemma {:induction false} TrimEndKeeps(s: string)
    requires s != [] && !IsSpace(s[|s| - 1])
    ensures TrimEnd(s) == s
  {
  }

  /** Text that neither begins nor ends with blank space survives padding with one space. */
  lemma TrimSpaces(f: string)
    requires f != [] && !IsSpace(f[0]) && !IsSpace(f[|f| - 1])
    ensures Trim(f + " ") == f && Trim(" " + f) == f && Trim(" " + f + " ") == f
  {
    var p := f + " ";
    assert p[0] == f[0];
    TrimStartKeeps(p);
    assert p[..|p| - 1] == f;
    TrimEndKeeps(f);
    var q := " " + f;
    assert q[1..] == f;
    TrimStartKeeps(f);
    var r := " " + f + " ";
    assert r[1..] == p;
    assert TrimStart(r) == TrimStart(p);
  }

  lemma JoinTwo(x: string, y: string, sep: string)
    ensures Join([x, y], sep) == x + sep + y
  {
    assert [x, y][1..] == [y];
  }

  /** A formatted day padded by a space on either side or both trims back to itself. */
  lemma TrimPadded(d: Day)
    ensures Trim(FormatDay(d) + " ") == FormatDay(d)
    ensures Trim(" " + FormatDay(d)) == FormatDay(d)
    ensures Trim(" " + FormatDay(d) + " ") == FormatDay(d)
  {
    FormatChars(d);
    TrimSpaces(FormatDay(d));
  }

  /** The text shown for a range with both days present. */
  lemma DisplayBoth(a: Day, b: Day)
    ensures DisplayText(Some(a), Some(b)) == FormatDay(a) + " - " + FormatDay(b)
  {
    assert Present([Some(a), Some(b)]) == [a, b] by {
      assert [Some(a), Some(b)][1..] == [Some(b)];
      assert [Some(b)][1..] == [];
      assert Present([Some(b)]) == [b];
    }
    assert FormatAll([a, b]) == [FormatDay(a), FormatDay(b)] by {
      assert [a, b][1..] == [b];
      assert [b][1..] == [];
      assert FormatAll([b]) == [FormatDay(b)];
    }
    JoinTwo(FormatDay(a), FormatDay(b), " - ");
  }

  /**
   * Reading back what the text field shows for a full range gives the range:
   * the shown text of two days with four-digit years parses to those two days.
   */
  lemma DisplayParse(a: Day, b: Day)
    requires ToCivil(a).year < 10000 && ToCivil(b).year < 10000
    ensures ParseInput(DisplayText(Some(a), Some(b))) == Some((a, b))
  {
    DisplayBoth(a, b);
    PaddedNoDash(a);
    PaddedNoDash(b);
    TrimPadded(a);
    TrimPadded(b);
    FormatChars(a);
    FormatChars(b);
    TwoTokens(FormatDay(a), FormatDay(b));
    ParseFormat(a);
    ParseFormat(b);
  }

  /** The tokens of two pieces joined by " - ", each free of '-' and of blank space at its ends. */
  lemma TwoTokens(x: string, y: string)
    requires NoDash(x + " ") && NoDash(" " + y)
    requires Trim(x + " ") == x != "" && Trim(" " + y) == y != ""
    ensures Tokens(x + " - " + y) == [x, y]
  {
    var left, right := x + " ", " " + y;
    assert x + " - " + y == left + ['-'] + right;
    SplitFirst(left, '-', right);
    SplitWhole(right, '-');
    assert TrimAll([left, right]) == [x, y] by {
      assert [left, right][1..] == [right];
      assert TrimAll([right]) == [y] by { assert [right][1..] == []; }
    }
    assert NonEmpty([x, y]) == [x, y] by {
      assert [x, y][1..] == [y];
      assert NonEmpty([y]) == [y] by { assert [y][1..] == []; }
    }
  }

  /** No '-' in a string, so splitting leaves it whole. */
  predicate NoDash(s: string) {
    forall i :: 0 <= i < |s| ==> s[i] != '-'
  }

  /** A formatted day padded by spaces contains no '-'. */
  lemma PaddedNoDash(d: Day)
    ensures NoDash(FormatDay(d) + " ") && NoDash(" " + FormatDay(d))
    ensures NoDash(" " + FormatDay(d) + " ")
  {
    var f := FormatDay(d);
    FormatChars(d);
    var p, q, r := f + " ", " " + f, " " + f + " ";
    forall i | 0 <= i < |p| ensures p[i] != '-' {
      if i < |f| { assert p[i] == f[i]; }
    }
    forall i | 0 <= i < |q| ensures q[i] != '-' {
      if 0 < i { assert q[i] == f[i - 1]; }
    }
    forall i | 0 <= i < |r| ensures r[i] != '-' {
      if 0 < i <= |f| { assert r[i] == f[i - 1]; }
    }
  }

  /** Trimming then dropping empty pieces keeps two leading pieces that trim to non-empty strings. */
  lemma {:induction false} LeadingTokens(p: string, q: string, more: seq<string>)
    requires Trim(p) != "" && Trim(q) != ""
    ensures var t := NonEmpty(TrimAll([p, q] + more));
      |t| >= 2 && t[0] == Trim(p) && t[1] == Trim(q)
  {
    assert ([p, q] + more)[1..] == [q] + more;
    assert ([q] + more)[1..] == more;
  }

  /** The tokens of text whose first two '-'-separated pieces trim to x and y. */
  lemma {:induction false} FirstTwoTokens(x: string, y: string, rest: string)
    requires NoDash(x + " ") && NoDash(" " + y + " ")
    requires Trim(x + " ") == x != "" && Trim(" " + y + " ") == y != ""
    ensures var t := Tokens(x + " - " + y + " - " + rest);
      |t| >= 2 && t[0] == x && t[1] == y
  {
    var left := x + " ";
    var mid := " " + y + " ";
    var after := " " + rest;
    assert x + " - " + y + " - " + rest == left + ['-'] + (mid + ['-'] + after);
    SplitFirst(left, '-', mid + ['-'] + after);
    SplitFirst(mid, '-', after);
    assert Split(x + " - " + y + " - " + rest, '-') == [left, mid] + Split(after, '-');
    LeadingTokens(left, mid, Split(after, '-'));
  }

  /**
   * Only the first two tokens are read: text continuing past the second date
   * with another '-' still reads as the two dates.
   */
  lemma ExtraTokensIgnored(a: Day, b: Day, rest: string)
    requires ToCivil(a).year < 10000 && ToCivil(b).year < 10000
    ensures ParseInput(FormatDay(a) + " - " + FormatDay(b) + " - " + rest) == Some((a, b))
  {
    PaddedNoDash(a);
    PaddedNoDash(b);
    TrimPadded(a);
    TrimPadded(b);
    FormatChars(a);
    FormatChars(b);
    FirstTwoTokens(FormatDay(a), FormatDay(b), rest);
    ParseFormat(a);
    ParseFormat(b);
  }

  /**
   * Strict reading: text is accepted only when its first two tokens are
   * exactly the formatted spellings of the two days it yields.
   */
  lemma ParseInputExact(text: string)
    requires ParseInput(text).Some?
    ensures var tokens := Tokens(text);
      |tokens| >= 2
      && tokens[0] == FormatDay(ParseInput(text).value.0)
      && tokens[1] == FormatDay(ParseInput(text).value.1)
  {
    var tokens := Tokens(text);
    FormatParse(tokens[0]);
    FormatParse(tokens[1]);
  }

  /** A single present day, wherever it sits, is the only day shown. */
  lemma PresentOne(d: Day)
    ensures Present([Some(d), None]) == [d]
    ensures Present([None, Some(d)]) == [d]
  {
    var none: seq<Option<Day>> := [None];
    var one: seq<Option<Day>> := [Some(d)];
    assert one[1..] == [] && none[1..] == [];
    assert Present(one) == [d];
    assert Present(none) == [];
    assert [Some(d), None][1..] == none;
    assert [None, Some(d)][1..] == one;
  }

  /** Text showing a single day has only one token, so typing it back changes nothing. */
  lemma DisplaySingleUnparsed(d: Day)
    ensures DisplayText(Some(d), None) == FormatDay(d)
    ensures DisplayText(None, Some(d)) == FormatDay(d)
    ensures ParseInput(FormatDay(d)).None?
  {
    PresentOne(d);
    assert FormatAll([d]) == [FormatDay(d)] by { assert [d][1..] == []; }
    FormatChars(d);
    SingleToken(FormatDay(d));
  }

  /** Text without '-' and without blank space at either end is a single token. */
  lemma SingleToken(f: string)
    requires f != [] && !IsSpace(f[0]) && !IsSpace(f[|f| - 1]) && NoDash(f)
    ensures Tokens(f) == [f]
  {
    SplitWhole(f, '-');
    TrimStartKeeps(f);
    TrimEndKeeps(f);
    assert TrimAll([f]) == [f] by { assert [f][1..] == []; }
    assert NonEmpty([f]) == [f] by { assert [f][1..] == []; }
  }

  /** The field is blank exactly when neither day is present. */
  lemma DisplayBlank(startD: Option<Day>, endD: Option<Day>)
    ensures DisplayText(startD, endD) == "" <==> startD.None? && endD.None?
  {
    assert [startD, endD][1..] == [endD];
    if startD.Some? && endD.Some? {
      DisplayBoth(startD.value, endD.value);
      FormatChars(startD.value);
    } else if startD.Some? {
      DisplaySingleUnparsed(startD.value);
      FormatChars(startD.value);
    } else if endD.Some? {
      DisplaySingleUnparsed(endD.value);
      FormatChars(endD.value);
    }
  }
}
