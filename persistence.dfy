/** The timers file (timers.txt): one line per timer, written as
    `process_name,interval_minutes,message,is_active` and read back with
    strip() and split(',', 3). Both variants of the application share it. */
module Persistence {
  import opened Wrappers
  import opened Text

  /** The part of a timer that is saved; last_notified is not. */
  datatype Fields = Fields(processName: string, intervalMinutes: int, message: string, isActive: bool)

  /** str(bool): "True" or "False". Lower-cased, it reads "true" exactly for True. */
  function BoolToString(b: bool): (r: string)
    ensures Lower(r) == "true" <==> b
    ensures ',' !in r && NoLineBreak(r)
  {
    if b then
      assert Lower("True") == "true";
      "True"
    else
      assert Lower("False")[0] == 'f';
      "False"
  }

  /** The four texts written for a timer. */
  function FieldTexts(f: Fields): seq<string> {
    [f.processName, IntToString(f.intervalMinutes), f.message, BoolToString(f.isActive)]
  }

  /** The text written for one timer, the four texts joined by commas,
      without the line terminator. */
  function FormatLine(f: Fields): (r: string)
    ensures Count(r, ',') >= 3
  {
    JoinCount(FieldTexts(f), ',');
    Join(FieldTexts(f), ',')
  }

  /** The lines written for a list of timers, one per timer, in order. */
  function FormatLines(fs: seq<Fields>): (lines: seq<string>)
    ensures |lines| == |fs|
  {
    seq(|fs|, k requires 0 <= k < |fs| => FormatLine(fs[k]))
  }

  /** Lines written to a file, every one followed by "\n". */
  function Terminated(lines: seq<string>): (r: string)
    ensures r == [] <==> lines == []
    ensures r != [] ==> r[|r| - 1] == '\n'
  {
    if lines == [] then [] else Terminated(lines[..|lines| - 1]) + lines[|lines| - 1] + "\n"
  }

  /** The whole file written by save_timers. */
  function SaveText(fs: seq<Fields>): (r: string)
    ensures r == [] <==> fs == []
    ensures r != [] ==> r[|r| - 1] == '\n'
  {
    Terminated(FormatLines(fs))
  }

  /** One line of the file: a timer, or None for a line that load_timers skips
      (not four comma-separated parts, an interval that int() rejects, or an
      interval that is not positive). The fourth part, lower-cased, decides
      is_active. */
  function ParseLine(line: string): (r: Option<Fields>)
    ensures r.Some? ==> r.value.intervalMinutes > 0
    ensures r.Some? ==> ',' !in r.value.processName && ',' !in r.value.message
  {
    ParseParts(Split(Strip(line), ',', 3))
  }

  /** The fields of a split line: exactly four parts, the second an integer
      that is positive. */
  function ParseParts(parts: seq<string>): (r: Option<Fields>)
    requires SplitShape(parts, ',', 3)
    ensures r.Some? <==> |parts| == 4 && ParseInt(parts[1]).Some? && ParseInt(parts[1]).value > 0
    ensures r.Some? ==>
      && r.value.processName == parts[0]
      && Some(r.value.intervalMinutes) == ParseInt(parts[1])
      && r.value.message == parts[2]
      && (r.value.isActive <==> Lower(parts[3]) == "true")
    ensures r.Some? ==> r.value.intervalMinutes > 0
    ensures r.Some? ==> ',' !in r.value.processName && ',' !in r.value.message
  {
    if |parts| != 4 then None
    else
      match ParseInt(parts[1])
      case None => None
      case Some(n) =>
        if n > 0 then Some(Fields(parts[0], n, parts[2], Lower(parts[3]) == "true")) else None
  }

  /** A line break as Python's text mode reads it (universal newlines). */
  predicate IsLineBreak(c: char) {
    c == '\n' || c == '\r'
  }

  predicate NoLineBreak(s: string) {
    '\n' !in s && '\r' !in s
  }

  /** Position of the first line break in `s`, or |s|. */
  function BreakIndex(s: string): (i: nat)
    ensures i <= |s|
    ensures i < |s| ==> IsLineBreak(s[i])
    ensures forall j :: 0 <= j < i ==> !IsLineBreak(s[j])
  {
    if s == [] then 0 else if IsLineBreak(s[0]) then 0 else 1 + BreakIndex(s[1..])
  }

  /** The lines that `for line in f` yields, without their terminators ("\n",
      "\r" or "\r\n"); a final line without a terminator is still a line.
      Every line is stripped before use, so dropping the terminator changes
      nothing downstream. */
  function ReadLines(text: string): (lines: seq<string>)
    ensures forall k :: 0 <= k < |lines| ==> NoLineBreak(lines[k])
    decreases |text|
  {
    if text == [] then []
    else
      var i := BreakIndex(text);
      if i == |text| then [text]
      else
        var next := if text[i] == '\r' && i + 1 < |text| && text[i + 1] == '\n' then i + 2 else i + 1;
        [text[..i]] + ReadLines(text[next..])
  }

  /** What one line adds to the loaded timers under the line rule `parse`:
      the timer it yields, or nothing. */
  function Keep(parse: string -> Option<Fields>, line: string): (fs: seq<Fields>)
    ensures |fs| <= 1
  {
    match parse(line)
    case None => []
    case Some(f) => [f]
  }

  /** load_timers's loop: apply the line rule to every line in file order and
      keep the timers it yields; a rejected line is skipped and reading goes on. */
  function LoadWith(parse: string -> Option<Fields>, lines: seq<string>): (fs: seq<Fields>)
    ensures |fs| <= |lines|
  {
    if lines == [] then [] else LoadWith(parse, lines[..|lines| - 1]) + Keep(parse, lines[|lines| - 1])
  }

  /** The timers load_timers keeps from the lines of the file. */
  function LoadLines(lines: seq<string>): (fs: seq<Fields>)
    ensures forall k :: 0 <= k < |fs| ==> fs[k].intervalMinutes > 0
  {
    LoadedPositive(ParseLine, lines);
    LoadWith(ParseLine, lines)
  }

  /** Everything loaded satisfies what the line rule guarantees of one line;
      here, a positive interval. */
  lemma {:induction false} LoadedPositive(parse: string -> Option<Fields>, lines: seq<string>)
    requires forall l :: parse(l).Some? ==> parse(l).value.intervalMinutes > 0
    ensures forall k :: 0 <= k < |LoadWith(parse, lines)| ==> LoadWith(parse, lines)[k].intervalMinutes > 0
  {
    if lines != [] {
      LoadedPositive(parse, lines[..|lines| - 1]);
    }
  }

  /** A timer that survives a save and a load unchanged: a positive interval,
      no comma in the name or the message, no line break in either, and no
      white space at the start of the name (strip() would remove it). */
  predicate Storable(f: Fields) {
    && f.intervalMinutes > 0
    && ',' !in f.processName && ',' !in f.message
    && NoLineBreak(f.processName) && NoLineBreak(f.message)
    && (f.processName == [] || !IsSpace(f.processName[0]))
  }

  lemma NumeralHasNoComma(n: int)
    ensures ',' !in IntToString(n) && NoLineBreak(IntToString(n))
  {
    assert Digits(if n < 0 then -n else n) == (if n < 0 then IntToString(n)[1..] else IntToString(n));
  }

  /** The texts of a storable timer have the shape split(',', 3) produces and
      parse back to its fields. */
  lemma ParseFieldTexts(f: Fields)
    requires Storable(f)
    ensures SplitShape(FieldTexts(f), ',', 3)
    ensures ParseParts(FieldTexts(f)) == Some(f)
  {
    NumeralHasNoComma(f.intervalMinutes);
    ShapeOfFour(f.processName, IntToString(f.intervalMinutes), f.message, BoolToString(f.isActive), ',');
    ParseIntToString(f.intervalMinutes);
  }

  /** A formatted line has no white space at either end. */
  lemma FormatLineStripped(f: Fields)
    requires f.processName == [] || !IsSpace(f.processName[0])
    ensures Stripped(FormatLine(f))
  {
    JoinEnds(FieldTexts(f), ',');
  }

  /** Reading a line back gives the timer that was written. */
  lemma ParseFormatLine(f: Fields)
    requires Storable(f)
    ensures ParseLine(FormatLine(f)) == Some(f)
  {
    ParseFieldTexts(f);
    FormatLineStripped(f);
    ParseFourFields(FieldTexts(f));
  }

  /** A formatted line holds no line break when its name and message hold none. */
  lemma FormatLineNoBreak(f: Fields)
    requires Storable(f)
    ensures NoLineBreak(FormatLine(f))
  {
    NumeralHasNoComma(f.intervalMinutes);
    var ts := FieldTexts(f);
    forall k | 0 <= k < 4 ensures NoLineBreak(ts[k]) {
    }
    JoinAvoids(ts, ',', '\n');
    JoinAvoids(ts, ',', '\r');
  }

  /** Reading a line that ends in "\n" yields that line first. */
  lemma ReadLinesFirst(l: string, rest: string)
    requires NoLineBreak(l)
    ensures ReadLines(l + "\n" + rest) == [l] + ReadLines(rest)
  {
    var text := l + "\n" + rest;
    assert text[|l|] == '\n';
    assert forall j :: 0 <= j < |l| ==> text[j] == l[j];
    assert BreakIndex(text) == |l|;
    assert text[..|l|] == l;
    assert text[|l| + 1..] == rest;
  }

  /** Terminated lines start with the first line and its terminator. */
  lemma {:induction false} TerminatedFirst(lines: seq<string>)
    requires lines != []
    ensures Terminated(lines) == lines[0] + "\n" + Terminated(lines[1..])
  {
    if |lines| > 1 {
      var init := lines[..|lines| - 1];
      TerminatedFirst(init);
      assert init[1..] == lines[1..][..|lines[1..]| - 1];
    }
  }

  /** Loading distributes over the lines of a file: a bad line never stops the
      lines after it from loading. */
  lemma {:induction false} LoadWithAppend(parse: string -> Option<Fields>, a: seq<string>, b: seq<string>)
    ensures LoadWith(parse, a + b) == LoadWith(parse, a) + LoadWith(parse, b)
  {
    if b == [] {
      assert a + b == a;
    } else {
      var b', last := b[..|b| - 1], b[|b| - 1];
      assert (a + b)[..|a + b| - 1] == a + b';
      assert (a + b)[|a + b| - 1] == last;
      LoadWithAppend(parse, a, b');
    }
  }

  /** A line the line rule rejects contributes nothing, wherever it stands. */
  lemma LoadSkipsRejected(parse: string -> Option<Fields>, a: seq<string>, bad: string, b: seq<string>)
    requires parse(bad).None?
    ensures LoadWith(parse, a + [bad] + b) == LoadWith(parse, a + b)
  {
    var pre := a + [bad];
    assert a + [bad] + b == pre + b;
    assert [bad][..0] == [];
    assert LoadWith(parse, [bad]) == [];
    calc {
      LoadWith(parse, pre + b);
      { LoadWithAppend(parse, pre, b); }
      LoadWith(parse, pre) + LoadWith(parse, b);
      { LoadWithAppend(parse, a, [bad]); }
      LoadWith(parse, a) + LoadWith(parse, b);
      { LoadWithAppend(parse, a, b); }
      LoadWith(parse, a + b);
    }
  }

  /** Loading lines that the line rule all accepts yields their timers in order. */
  lemma {:induction false} LoadAccepted(parse: string -> Option<Fields>, lines: seq<string>, fs: seq<Fields>)
    requires |lines| == |fs|
    requires forall k :: 0 <= k < |lines| ==> parse(lines[k]) == Some(fs[k])
    ensures LoadWith(parse, lines) == fs
  {
    if lines != [] {
      var n := |lines| - 1;
      LoadAccepted(parse, lines[..n], fs[..n]);
      assert fs == fs[..n] + [fs[n]];
    }
  }

  /** Reading terminated lines that hold no line break gives them back. */
  lemma {:induction false} ReadTerminated(lines: seq<string>)
    requires forall k :: 0 <= k < |lines| ==> NoLineBreak(lines[k])
    ensures ReadLines(Terminated(lines)) == lines
  {
    if lines != [] {
      TerminatedFirst(lines);
      ReadLinesFirst(lines[0], Terminated(lines[1..]));
      ReadTerminated(lines[1..]);
    }
  }

  /** Round trip: loading what save_timers wrote yields the same names,
      intervals, messages and active flags, in the same order. */
  lemma SaveLoadRoundTrip(fs: seq<Fields>)
    requires forall k :: 0 <= k < |fs| ==> Storable(fs[k])
    ensures LoadLines(ReadLines(SaveText(fs))) == fs
  {
    var lines := FormatLines(fs);
    forall k | 0 <= k < |lines| ensures NoLineBreak(lines[k]) && ParseLine(lines[k]) == Some(fs[k]) {
      FormatLineNoBreak(fs[k]);
      ParseFormatLine(fs[k]);
    }
    ReadTerminated(lines);
    LoadAccepted(ParseLine, lines, fs);
  }

  /** Saving one more timer appends its line and a terminator. */
  lemma SaveTextAppend(fs: seq<Fields>, f: Fields)
    ensures SaveText(fs + [f]) == SaveText(fs) + FormatLine(f) + "\n"
  {
    var lines := FormatLines(fs + [f]);
    assert lines[..|lines| - 1] == FormatLines(fs);
  }

  /** A line made of four fields, the first three without a comma and nothing
      for strip() to remove, is parsed field by field: it is loaded exactly
      when its second field is an integer and that integer is positive, and
      the fourth field, lower-cased, decides is_active. */
  lemma ParseFourFields(parts: seq<string>)
    requires |parts| == 4 && SplitShape(parts, ',', 3)
    requires Stripped(Join(parts, ','))
    ensures ParseLine(Join(parts, ',')) == ParseParts(parts)
  {
    StripSplitJoin(parts, ',', 3);
  }

  /** A line with fewer than three commas (after strip) is skipped. */
  lemma TooFewFieldsSkipped(line: string)
    requires Count(Strip(line), ',') < 3
    ensures ParseLine(line) == None
  {
    SplitCuts(Strip(line), ',', 3);
  }

  /** Moving a comma from the third field to the fourth leaves the line alone. */
  lemma ShiftComma(a: string, b: string, head: string, tail: string, d: string)
    ensures Join([a, b, head, tail + "," + d], ',') == Join([a, b, head + "," + tail, d], ',')
  {
    assert Join([head, tail + "," + d], ',') == Join([head + "," + tail, d], ',');
    assert [b, head, tail + "," + d][1..] == [head, tail + "," + d];
    assert [b, head + "," + tail, d][1..] == [head + "," + tail, d];
  }

  /** A text holding a comma never lower-cases to "true". */
  lemma CommaNotTrue(tail: string, d: string)
    ensures Lower(tail + "," + d) != "true"
  {
    var x := tail + "," + d;
    assert Lower(x)[|tail|] == ',';
    assert ',' in Lower(x);
  }

  /** A message holding a comma does not survive a save and a load: the
      message is cut at its first comma, and the rest of it joins the
      is_active text, which then no longer reads "true", so the timer comes
      back inactive. */
  lemma CommaInMessageCutShort(f: Fields, head: string, tail: string)
    requires f.intervalMinutes > 0 && ',' !in f.processName
    requires f.processName == [] || !IsSpace(f.processName[0])
    requires f.message == head + "," + tail && ',' !in head
    ensures ParseLine(FormatLine(f)) == Some(f.(message := head, isActive := false))
  {
    var n := IntToString(f.intervalMinutes);
    var flag := tail + "," + BoolToString(f.isActive);
    var parts := [f.processName, n, head, flag];
    NumeralHasNoComma(f.intervalMinutes);
    ShapeOfFour(f.processName, n, head, flag, ',');
    calc {
      ParseLine(FormatLine(f));
      { ShiftComma(f.processName, n, head, tail, BoolToString(f.isActive)); }
      ParseLine(Join(parts, ','));
      { FormatLineStripped(f); ShiftComma(f.processName, n, head, tail, BoolToString(f.isActive));
        ParseFourFields(parts); }
      ParseParts(parts);
      { ParseIntToString(f.intervalMinutes); CommaNotTrue(tail, BoolToString(f.isActive)); }
      Some(f.(message := head, isActive := false));
    }
  }

  /** A line whose interval, the second of the four parts strip() and
      split(',', 3) make of it, is not an integer is skipped; for instance
      "chrome.exe,abc,msg,True". */
  lemma NonIntegerIntervalSkipped(line: string)
    requires |Split(Strip(line), ',', 3)| == 4
    requires ParseInt(Split(Strip(line), ',', 3)[1]) == None
    ensures ParseLine(line) == None
  {
    var parts := Split(Strip(line), ',', 3);
    assert ParseLine(line) == ParseParts(parts);
  }

  /** A line whose interval is an integer but not a positive one is skipped. */
  lemma NonPositiveIntervalSkipped(line: string)
    requires |Split(Strip(line), ',', 3)| == 4
    requires ParseInt(Split(Strip(line), ',', 3)[1]).Some?
    requires ParseInt(Split(Strip(line), ',', 3)[1]).value <= 0
    ensures ParseLine(line) == None
  {
    var parts := Split(Strip(line), ',', 3);
    assert ParseLine(line) == ParseParts(parts);
  }
}
