/**
  Parsing decklist lines of the form "<count> <name>": the line is split at
  its first space, and the part before it is read the way Python's `int()`
  reads a decimal string. Any malformed line aborts the whole decklist.
 */
module Decklist {
  import opened Wrappers

  /** One parsed line: a copy count (any integer) and the card name as written. */
  datatype Entry = Entry(count: int, name: string)

  /** Why a decklist was rejected; `line` is the 0-based position of the first bad line. */
  datatype ParseError =
    | MissingSpace(line: nat)              // no space to split the line at
    | BadCount(line: nat, token: string)   // the text before the first space is not an integer

  /**
    A line split once, at its first space, into two parts: the text before
    that space and everything after it (which may itself contain spaces), or
    None when there is no space.
   */
  function SplitFirstSpace(line: string): (r: Option<(string, string)>)
    ensures r.None? <==> ' ' !in line
    ensures r.Some? ==> ' ' !in r.value.0 && line == r.value.0 + " " + r.value.1
    decreases |line|
  {
    if |line| == 0 then None
    else if line[0] == ' ' then Some(("", line[1..]))
    else
      match SplitFirstSpace(line[1..])
      case None => None
      case Some(p) => Some(([line[0]] + p.0, p.1))
  }

  /** Splitting undoes joining with a space, whatever spaces the second part holds. */
  lemma SplitJoin(head: string, tail: string)
    requires ' ' !in head
    ensures SplitFirstSpace(head + " " + tail) == Some((head, tail))
  {
    var line := head + " " + tail;
    assert line[|head|] == ' ';
    var p := SplitFirstSpace(line).value;
    assert line[..|p.0|] == p.0 && line[|p.0|] == ' ';
    assert line[..|head|] == head;
    if |p.0| != |head| {
      assert false;
    }
    assert p.1 == line[|head| + 1..] == tail;
  }

  /**
    The ASCII characters `int()` skips around a number: tab, line feed,
    vertical tab, form feed, carriage return and space. The separators
    0x1C-0x1F count as white space for `str.isspace()` but not here.
   */
  predicate IsSpace(c: char) {
    9 <= c as int <= 13 || c == ' '
  }

  predicate IsDigit(c: char) {
    '0' <= c <= '9'
  }

  function DigitValue(c: char): nat
    requires IsDigit(c)
  {
    c as int - '0' as int
  }

  function DigitChar(d: nat): (c: char)
    requires d < 10
    ensures IsDigit(c) && DigitValue(c) == d
  {
    ('0' as int + d) as char
  }

  /** `s` without its leading and trailing spaces. */
  function Trim(s: string): (r: string)
    ensures |r| > 0 ==> !IsSpace(r[0]) && !IsSpace(r[|r| - 1])
    decreases |s|
  {
    if |s| > 0 && IsSpace(s[0]) then Trim(s[1..])
    else if |s| > 0 && IsSpace(s[|s| - 1]) then Trim(s[..|s| - 1])
    else s
  }

  /**
    A digit string as Python's `int()` accepts it: non-empty, starting and
    ending with a digit, with single underscores allowed between digits.
   */
  predicate IsDigitRun(s: string) {
    && |s| > 0
    && IsDigit(s[0])
    && IsDigit(s[|s| - 1])
    && forall i :: 0 <= i < |s| - 1 ==> DigitOrJoiner(s, i)
  }

  /** Position `i` holds a digit, or an underscore directly followed by a digit. */
  predicate DigitOrJoiner(s: string, i: int)
    requires 0 <= i < |s| - 1
  {
    IsDigit(s[i]) || (s[i] == '_' && IsDigit(s[i + 1]))
  }

  lemma DigitRunChars(s: string)
    requires IsDigitRun(s)
    ensures forall i :: 0 <= i < |s| ==> IsDigit(s[i]) || s[i] == '_'
  {
    forall i | 0 <= i < |s|
      ensures IsDigit(s[i]) || s[i] == '_'
    {
      if i < |s| - 1 {
        assert DigitOrJoiner(s, i);
      } else {
        assert IsDigit(s[|s| - 1]);
      }
    }
  }

  /** Decimal value of the digits of `s`, underscores skipped. */
  function ValueOf(s: string): nat
    requires forall i :: 0 <= i < |s| ==> IsDigit(s[i]) || s[i] == '_'
    decreases |s|
  {
    if s == [] then 0
    else
      var init := s[..|s| - 1];
      assert forall i :: 0 <= i < |init| ==> init[i] == s[i];
      if s[|s| - 1] == '_' then ValueOf(init)
      else 10 * ValueOf(init) + DigitValue(s[|s| - 1])
  }

  /**
    `int(token)` for base 10: optional surrounding spaces, an optional sign,
    then a digit run; None where Python raises ValueError.
   */
  function ParseInt(token: string): (r: Option<int>)
    ensures r.Some? ==> exists i :: 0 <= i < |token| && IsDigit(token[i])
    ensures |token| > 0 && (forall i :: 0 <= i < |token| ==> IsDigit(token[i])) ==> r == Some(ValueOf(token))
  {
    var t := Trim(token);
    TrimKeepsChars(token);
    if |t| > 0 && (t[0] == '+' || t[0] == '-') then
      var body := t[1..];
      if IsDigitRun(body) then
        DigitRunChars(body);
        assert body[0] in token;
        var v: int := ValueOf(body);
        Some(if t[0] == '-' then -v else v)
      else None
    else if IsDigitRun(t) then
      DigitRunChars(t);
      assert t[0] in token;
      Some(ValueOf(t))
    else None
  }

  /** `str(n)` for a natural number: its decimal digits, no leading zeros. */
  function NatToString(n: nat): (s: string)
    ensures |s| > 0 && forall i :: 0 <= i < |s| ==> IsDigit(s[i])
    ensures s[0] == '0' ==> n == 0
    decreases n
  {
    if n < 10 then [DigitChar(n)] else NatToString(n / 10) + [DigitChar(n % 10)]
  }

  /** `str(n)` for any integer: a minus sign exactly for negative numbers, then only digits. */
  function IntToString(n: int): (s: string)
    ensures |s| > 0 && ' ' !in s
    ensures s[0] == '-' <==> n < 0
    ensures forall i :: (if n < 0 then 1 else 0) <= i < |s| ==> IsDigit(s[i])
    ensures |s| > (if n < 0 then 1 else 0) && (s[if n < 0 then 1 else 0] == '0' ==> n == 0)
  {
    if n < 0 then
      var digits := NatToString(-n);
      assert forall i :: 1 <= i < |digits| + 1 ==> ("-" + digits)[i] == digits[i - 1];
      "-" + digits
    else NatToString(n)
  }

  /** The digits `str` writes for `n` read back as `n`. */
  lemma {:induction false} ValueOfNatToString(n: nat)
    ensures ValueOf(NatToString(n)) == n
    decreases n
  {
    if n >= 10 {
      var s := NatToString(n);
      assert s[..|s| - 1] == NatToString(n / 10);
      ValueOfNatToString(n / 10);
    }
  }

  /** `int(str(n)) == n` for every integer `n`. */
  lemma ParseIntRoundTrip(n: int)
    ensures ParseInt(IntToString(n)) == Some(n)
  {
    var m: nat := if n < 0 then -n else n;
    ValueOfNatToString(m);
    if n < 0 {
      var s := IntToString(n);
      assert s[1..] == NatToString(m);
      NegativeDigits(s);
    }
  }

  /** A minus sign followed by digits reads as the negated digits. */
  lemma NegativeDigits(s: string)
    requires |s| > 1 && s[0] == '-' && forall i :: 1 <= i < |s| ==> IsDigit(s[i])
    ensures forall i :: 0 <= i < |s| - 1 ==> IsDigit(s[1..][i])
    ensures ParseInt(s) == Some(-(ValueOf(s[1..]) as int))
  {
    TrimUnchanged(s);
    DigitsAreRun(s[1..]);
  }

  /** A string that neither starts nor ends with a space is left as it is by trimming. */
  lemma TrimUnchanged(s: string)
    requires |s| > 0 && !IsSpace(s[0]) && !IsSpace(s[|s| - 1])
    ensures Trim(s) == s
  {
  }

  /** A non-empty string of digits only is a digit run. */
  lemma DigitsAreRun(digits: string)
    requires |digits| > 0 && forall i :: 0 <= i < |digits| ==> IsDigit(digits[i])
    ensures IsDigitRun(digits)
  {
    assert forall i :: 0 <= i < |digits| - 1 ==> DigitOrJoiner(digits, i);
  }

  /** A token with no digit at all is never a number. */
  lemma ParseIntNeedsDigit(token: string)
    requires forall i :: 0 <= i < |token| ==> !IsDigit(token[i])
    ensures ParseInt(token) == None
  {
    TrimKeepsChars(token);
    var t := Trim(token);
    assert forall i :: 0 <= i < |t| ==> t[i] in token;
    assert forall i :: 0 <= i < |t| ==> !IsDigit(t[i]);
  }

  /** Trimming only removes characters: every character it keeps was in the input. */
  lemma {:induction false} TrimKeepsChars(s: string)
    ensures forall c :: c in Trim(s) ==> c in s
    decreases |s|
  {
    if |s| > 0 && IsSpace(s[0]) {
      TrimKeepsChars(s[1..]);
      assert forall c :: c in s[1..] ==> c in s;
    } else if |s| > 0 && IsSpace(s[|s| - 1]) {
      TrimKeepsChars(s[..|s| - 1]);
      assert forall c :: c in s[..|s| - 1] ==> c in s;
    }
  }

  /** One line of the decklist at position `index`: split at its first space, the head read as the count and the rest kept as the name. */
  function ParseLine(line: string, index: nat): (r: Result<Entry, ParseError>)
    ensures r.Failure? ==> r.error.line == index
    ensures r.Failure? && r.error.MissingSpace? <==> ' ' !in line
    ensures r.Failure? && r.error.BadCount? ==>
              && ' ' !in r.error.token
              && |r.error.token| < |line|
              && line[..|r.error.token|] == r.error.token
              && line[|r.error.token|] == ' '
              && ParseInt(r.error.token) == None
    ensures r.Success? ==>
              exists head :: ' ' !in head && line == head + " " + r.value.name
                             && ParseInt(head) == Some(r.value.count)
  {
    match SplitFirstSpace(line)
    case None => Failure(MissingSpace(index))
    case Some(p) =>
      match ParseInt(p.0)
      case None => Failure(BadCount(index, p.0))
      case Some(count) => Success(Entry(count, p.1))
  }

  /** A line whose first space follows `head` is judged by `int(head)` alone, with `tail` as the name. */
  lemma ParseLineParts(head: string, tail: string, index: nat)
    requires ' ' !in head
    ensures ParseInt(head).None? ==> ParseLine(head + " " + tail, index) == Failure(BadCount(index, head))
    ensures ParseInt(head).Some? ==>
              ParseLine(head + " " + tail, index) == Success(Entry(ParseInt(head).value, tail))
  {
    SplitJoin(head, tail);
  }

  /**
    A count followed by an information separator (0x1C) is not a number,
    although `str.isspace()` holds of that character: the whole line is rejected.
   */
  lemma ParseLineSeparatorInCount()
    ensures ParseLine("7\U{1C} Forest", 0) == Failure(BadCount(0, "7\U{1C}"))
  {
    var line := "7\U{1C} Forest";
    assert line == "7\U{1C}" + " " + "Forest";
    TrailingSeparatorRejected();
    ParseLineParts("7\U{1C}", "Forest", 0);
  }

  /** `int("7\x1c")` raises: the separator is neither skipped nor a digit. */
  lemma TrailingSeparatorRejected()
    ensures ParseInt("7\U{1C}") == None
  {
    assert Trim("7\U{1C}") == "7\U{1C}";
    assert !IsDigit("7\U{1C}"[1]);
  }

  /** `int("7\t")` is 7: the trailing tab is skipped. */
  lemma TrailingTabSkipped()
    ensures ParseInt("7\t") == Some(7)
  {
    assert Trim("7\t") == Trim("7");
    assert Trim("7") == "7";
    assert IsDigitRun("7");
    assert ValueOf("7") == 7;
  }

  /** A tab after the count is skipped, as `int()` skips it. */
  lemma ParseLineTabInCount()
    ensures ParseLine("7\t Forest", 0) == Success(Entry(7, "Forest"))
  {
    var line := "7\t Forest";
    assert line == "7\t" + " " + "Forest";
    TrailingTabSkipped();
    ParseLineParts("7\t", "Forest", 0);
  }

  /** A well-formed line "<count> <name>" parses to exactly that count and name. */
  lemma ParseLineFormatted(count: int, name: string, index: nat)
    ensures ParseLine(IntToString(count) + " " + name, index) == Success(Entry(count, name))
  {
    var token := IntToString(count);
    SplitJoin(token, name);
    ParseIntRoundTrip(count);
  }

  /**
    Parses `lines[k..]`, numbering lines from `k`; the first bad line
    aborts everything and no partial list is returned.
   */
  function ParseFrom(lines: seq<string>, k: nat): (r: Result<seq<Entry>, ParseError>)
    requires k <= |lines|
    ensures r.Success? <==> forall j :: k <= j < |lines| ==> ParseLine(lines[j], j).Success?
    ensures r.Success? ==>
              && |r.value| == |lines| - k
              && forall j :: k <= j < |lines| ==> ParseLine(lines[j], j) == Success(r.value[j - k])
    decreases |lines| - k
  {
    if k == |lines| then Success([])
    else
      match ParseLine(lines[k], k)
      case Failure(e) => Failure(e)
      case Success(entry) =>
        match ParseFrom(lines, k + 1)
        case Failure(e) => Failure(e)
        case Success(rest) =>
          ParsedCons(lines, k, entry, rest);
          Success([entry] + rest)
  }

  /** A failed parse reports the error of the first line that does not parse. */
  lemma {:induction false} ParseFromFailure(lines: seq<string>, k: nat)
    requires k <= |lines|
    ensures ParseFrom(lines, k).Failure? ==>
            exists j :: k <= j < |lines| && ParseLine(lines[j], j) == Failure(ParseFrom(lines, k).error)
                        && forall i :: k <= i < j ==> ParseLine(lines[i], i).Success?
    decreases |lines| - k
  {
    if k == |lines| || ParseFrom(lines, k).Success? {
    } else if ParseLine(lines[k], k).Success? {
      ParseFromFailure(lines, k + 1);
      var j :| k + 1 <= j < |lines| && ParseLine(lines[j], j) == Failure(ParseFrom(lines, k + 1).error)
                && forall i :: k + 1 <= i < j ==> ParseLine(lines[i], i).Success?;
      assert forall i :: k <= i < j ==> ParseLine(lines[i], i).Success?;
    } else {
      assert ParseLine(lines[k], k) == Failure(ParseFrom(lines, k).error);
    }
  }

  /** A line that parses, followed by lines that all parse, gives its entry followed by theirs. */
  lemma ParsedCons(lines: seq<string>, k: nat, entry: Entry, rest: seq<Entry>)
    requires k < |lines| && |rest| == |lines| - k - 1
    requires ParseLine(lines[k], k) == Success(entry)
    requires forall j :: k + 1 <= j < |lines| ==> ParseLine(lines[j], j) == Success(rest[j - k - 1])
    ensures forall j :: k <= j < |lines| ==> ParseLine(lines[j], j) == Success(([entry] + rest)[j - k])
  {
    var r := [entry] + rest;
    assert forall i :: 0 <= i < |rest| ==> r[i + 1] == rest[i];
  }

  /**
    The whole decklist, parsed in line order: it succeeds exactly when every
    line parses, giving one entry per line, and otherwise reports the first
    bad line.
   */
  function ParseDecklist(lines: seq<string>): (r: Result<seq<Entry>, ParseError>)
    ensures r.Success? <==> forall j :: 0 <= j < |lines| ==> ParseLine(lines[j], j).Success?
    ensures r.Success? ==>
              && |r.value| == |lines|
              && forall j :: 0 <= j < |lines| ==> ParseLine(lines[j], j) == Success(r.value[j])
    ensures r.Failure? ==>
              exists j :: 0 <= j < |lines| && ParseLine(lines[j], j) == Failure(r.error)
                          && forall i :: 0 <= i < j ==> ParseLine(lines[i], i).Success?
  {
    ParseFromFailure(lines, 0);
    ParseFrom(lines, 0)
  }
}
