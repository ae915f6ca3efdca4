/** The parts of Python's string and integer built-ins that the timer registry
    relies on: str.isspace, str.strip, str.lower, str.split(sep, maxsplit),
    str(int) and int(str). Strings are sequences of characters. */
module Text {
  import opened Wrappers

  /** str.isspace() of one character, for the ASCII range: space, TAB, LF,
      VT, FF, CR and the separators U+001C..U+001F. */
  predicate IsSpace(c: char) {
    c == ' ' || ('\t' <= c <= '\r') || ('\U{1C}' <= c <= '\U{1F}')
  }

  /** str.lstrip(): drop the leading white space. */
  function TrimLeft(s: string): (r: string)
    ensures |r| <= |s| && r == s[|s| - |r|..]
    ensures forall i :: 0 <= i < |s| - |r| ==> IsSpace(s[i])
    ensures r == [] || !IsSpace(r[0])
  {
    if s != [] && IsSpace(s[0]) then TrimLeft(s[1..]) else s
  }

  /** str.rstrip(): drop the trailing white space. */
  function TrimRight(s: string): (r: string)
    ensures |r| <= |s| && r == s[..|r|]
    ensures forall i :: |r| <= i < |s| ==> IsSpace(s[i])
    ensures r == [] || !IsSpace(r[|r| - 1])
  {
    if s != [] && IsSpace(s[|s| - 1]) then TrimRight(s[..|s| - 1]) else s
  }

  /** str.strip(): drop white space at both ends. */
  function Strip(s: string): (r: string)
    ensures |r| <= |s|
    ensures r == [] || (!IsSpace(r[0]) && !IsSpace(r[|r| - 1]))
  {
    TrimRight(TrimLeft(s))
  }

  /** strip() removes white space from the two ends and nothing else: what it
      returns is a contiguous piece of the text, with only white space before
      and after it. */
  lemma StripRemovesOnlySpace(s: string)
    ensures var i := |s| - |TrimLeft(s)|;
      && 0 <= i <= |s| - |Strip(s)|
      && Strip(s) == s[i..i + |Strip(s)|]
      && (forall j :: 0 <= j < i ==> IsSpace(s[j]))
      && (forall j :: i + |Strip(s)| <= j < |s| ==> IsSpace(s[j]))
  {
    var l := TrimLeft(s);
    var r := TrimRight(l);
    assert r == Strip(s);
    PrefixOfSuffix(s, l, r);
  }

  /** A prefix r of a suffix l of s, followed in l only by white space, is a
      slice of s followed in s only by white space. */
  lemma PrefixOfSuffix(s: string, l: string, r: string)
    requires |l| <= |s| && l == s[|s| - |l|..]
    requires |r| <= |l| && r == l[..|r|]
    requires forall j :: |r| <= j < |l| ==> IsSpace(l[j])
    ensures r == s[|s| - |l|..|s| - |l| + |r|]
    ensures forall j :: |s| - |l| + |r| <= j < |s| ==> IsSpace(s[j])
  {
    var i := |s| - |l|;
    forall j | i + |r| <= j < |s| ensures IsSpace(s[j]) {
      assert s[j] == l[j - i];
    }
  }

  /** A string that strip() leaves alone: empty, or with no white space at either end. */
  predicate Stripped(s: string) {
    s == [] || (!IsSpace(s[0]) && !IsSpace(s[|s| - 1]))
  }

  lemma StripKeeps(s: string)
    requires Stripped(s)
    ensures Strip(s) == s
  {
  }

  /** Stripping twice is stripping once. */
  lemma StripIdempotent(s: string)
    ensures Strip(Strip(s)) == Strip(s)
  {
    StripKeeps(Strip(s));
  }

  /** strip() yields the empty string exactly when every character is white space. */
  lemma StripEmptyIff(s: string)
    ensures Strip(s) == [] <==> forall i :: 0 <= i < |s| ==> IsSpace(s[i])
  {
    var l := TrimLeft(s);
    if Strip(s) == [] {
      forall i | 0 <= i < |s| ensures IsSpace(s[i]) {
        if i >= |s| - |l| {
          assert s[i] == l[i - (|s| - |l|)];
        }
      }
    } else {
      var r := Strip(s);
      assert r[0] == l[0] == s[|s| - |l|];
    }
  }

  /** str.lower() on one character, for the ASCII letters. */
  function LowerChar(c: char): char {
    if 'A' <= c <= 'Z' then (c as int + 32) as char else c
  }

  /** str.lower(), for the ASCII letters. */
  function Lower(s: string): (r: string)
    ensures |r| == |s|
    ensures forall i :: 0 <= i < |s| ==> r[i] == LowerChar(s[i])
  {
    if s == [] then [] else [LowerChar(s[0])] + Lower(s[1..])
  }

  /** Lower-casing twice is lower-casing once. */
  lemma LowerIdempotent(s: string)
    ensures Lower(Lower(s)) == Lower(s)
  {
    assert forall i :: 0 <= i < |s| ==> LowerChar(LowerChar(s[i])) == LowerChar(s[i]);
  }

  /** Position of the first `c` in `s`, or |s| when there is none. */
  function IndexOf(s: string, c: char): (i: nat)
    ensures i <= |s|
    ensures i < |s| ==> s[i] == c
    ensures forall j :: 0 <= j < i ==> s[j] != c
  {
    if s == [] then 0 else if s[0] == c then 0 else 1 + IndexOf(s[1..], c)
  }

  /** sep.join(parts) for a non-empty list of parts. */
  function Join(parts: seq<string>, sep: char): string
    requires parts != []
  {
    if |parts| == 1 then parts[0] else parts[0] + [sep] + Join(parts[1..], sep)
  }

  /** The parts `split` may produce: no separator in any part but the last,
      and none in the last either when fewer than maxsplit cuts were made. */
  predicate SplitShape(parts: seq<string>, sep: char, maxsplit: nat) {
    && 1 <= |parts| <= maxsplit + 1
    && (forall k :: 0 <= k < |parts| - 1 ==> sep !in parts[k])
    && (|parts| <= maxsplit ==> sep !in parts[|parts| - 1])
  }

  /** s.split(sep, maxsplit): cut at the first `maxsplit` occurrences of `sep`;
      the last part keeps the rest of the string. */
  function Split(s: string, sep: char, maxsplit: nat): (parts: seq<string>)
    ensures SplitShape(parts, sep, maxsplit)
    ensures Join(parts, sep) == s
  {
    var i := IndexOf(s, sep);
    if maxsplit == 0 || i == |s| then [s]
    else
      var rest := Split(s[i + 1..], sep, maxsplit - 1);
      assert s == s[..i] + [sep] + s[i + 1..];
      [s[..i]] + rest
  }

  /** Four parts, the first three free of the separator, have the shape
      split(sep, 3) produces. */
  lemma ShapeOfFour(a: string, b: string, c: string, d: string, sep: char)
    requires sep !in a && sep !in b && sep !in c
    ensures SplitShape([a, b, c, d], sep, 3)
  {
    var ps := [a, b, c, d];
    forall k | 0 <= k < 3 ensures sep !in ps[k] {
      if k == 0 { assert ps[k] == a; } else if k == 1 { assert ps[k] == b; } else { assert ps[k] == c; }
    }
  }

  /** A character that is neither the separator nor in any part is not in the join. */
  lemma {:induction false} JoinAvoids(parts: seq<string>, sep: char, c: char)
    requires parts != [] && c != sep
    requires forall k :: 0 <= k < |parts| ==> c !in parts[k]
    ensures c !in Join(parts, sep)
  {
    if |parts| > 1 {
      JoinAvoids(parts[1..], sep, c);
    }
  }

  /** The first and last characters of a join of two or more parts. */
  lemma {:induction false} JoinEnds(parts: seq<string>, sep: char)
    requires |parts| >= 2
    ensures Join(parts, sep) != []
    ensures Join(parts, sep)[0] == if parts[0] == [] then sep else parts[0][0]
    ensures parts[|parts| - 1] != [] ==> Join(parts, sep)[|Join(parts, sep)| - 1] == parts[|parts| - 1][|parts[|parts| - 1]| - 1]
  {
    var j := Join(parts, sep);
    var rest := Join(parts[1..], sep);
    assert j == parts[0] + [sep] + rest;
    if |parts| > 2 {
      JoinEnds(parts[1..], sep);
    }
  }

  /** Splitting at a first separator that follows a separator-free prefix. */
  lemma SplitAtFirst(p: string, sep: char, rest: string, maxsplit: nat)
    requires maxsplit > 0 && sep !in p
    ensures Split(p + [sep] + rest, sep, maxsplit) == [p] + Split(rest, sep, maxsplit - 1)
  {
    var s := p + [sep] + rest;
    assert s[|p|] == sep;
    assert forall j :: 0 <= j < |p| ==> s[j] == p[j];
    assert IndexOf(s, sep) == |p|;
    assert s[..|p|] == p;
    assert s[|p| + 1..] == rest;
  }

  lemma ShapeTail(parts: seq<string>, sep: char, maxsplit: nat)
    requires SplitShape(parts, sep, maxsplit) && |parts| > 1
    ensures maxsplit > 0 && SplitShape(parts[1..], sep, maxsplit - 1) && sep !in parts[0]
  {
    assert forall k :: 0 <= k < |parts| - 1 ==> parts[1..][k] == parts[k + 1];
  }

  /** A text with no separator to cut at is split into itself. */
  lemma SplitWhole(s: string, sep: char, maxsplit: nat)
    requires maxsplit == 0 || sep !in s
    ensures Split(s, sep, maxsplit) == [s]
  {
    if maxsplit > 0 {
      assert IndexOf(s, sep) == |s|;
    }
  }

  /** Split inverts Join on the parts Split can produce. */
  lemma {:induction false} SplitJoin(parts: seq<string>, sep: char, maxsplit: nat)
    requires SplitShape(parts, sep, maxsplit)
    ensures Split(Join(parts, sep), sep, maxsplit) == parts
  {
    if |parts| == 1 {
      SplitWhole(parts[0], sep, maxsplit);
    } else {
      var p, tail := parts[0], parts[1..];
      var j := Join(tail, sep);
      ShapeTail(parts, sep, maxsplit);
      calc {
        Split(Join(parts, sep), sep, maxsplit);
        { assert Join(parts, sep) == p + [sep] + j; }
        Split(p + [sep] + j, sep, maxsplit);
        { SplitAtFirst(p, sep, j, maxsplit); }
        [p] + Split(j, sep, maxsplit - 1);
        { SplitJoin(tail, sep, maxsplit - 1); }
        [p] + tail;
        { assert parts == [p] + tail; }
        parts;
      }
    }
  }

  /** Split inverts Join also after strip(), when the joined text has nothing
      for strip() to remove. */
  lemma StripSplitJoin(parts: seq<string>, sep: char, maxsplit: nat)
    requires SplitShape(parts, sep, maxsplit)
    requires Stripped(Join(parts, sep))
    ensures Split(Strip(Join(parts, sep)), sep, maxsplit) == parts
  {
    StripKeeps(Join(parts, sep));
    SplitJoin(parts, sep, maxsplit);
  }

  /** s.count(c) for one character. */
  function Count(s: string, c: char): nat {
    if s == [] then 0 else (if s[0] == c then 1 else 0) + Count(s[1..], c)
  }

  lemma {:induction false} CountAppend(a: string, b: string, c: char)
    ensures Count(a + b, c) == Count(a, c) + Count(b, c)
  {
    if a == [] {
      assert a + b == b;
    } else {
      assert (a + b)[1..] == a[1..] + b;
      CountAppend(a[1..], b, c);
    }
  }

  /** Joining n parts puts at least n - 1 separators in the text. */
  lemma {:induction false} JoinCount(parts: seq<string>, sep: char)
    requires parts != []
    ensures Count(Join(parts, sep), sep) >= |parts| - 1
  {
    if |parts| > 1 {
      var rest := Join(parts[1..], sep);
      JoinCount(parts[1..], sep);
      assert Join(parts, sep) == (parts[0] + [sep]) + rest;
      CountAppend(parts[0] + [sep], rest, sep);
      CountAppend(parts[0], [sep], sep);
      assert [sep][1..] == [];
    }
  }

  /** split() never makes more parts than the text has separators, plus one. */
  lemma SplitCuts(s: string, sep: char, maxsplit: nat)
    ensures |Split(s, sep, maxsplit)| <= Count(s, sep) + 1
  {
    JoinCount(Split(s, sep, maxsplit), sep);
  }

  /** The character of a decimal digit 0..9. */
  function DigitChar(d: nat): char
    requires d < 10
  {
    ('0' as int + d) as char
  }

  predicate IsDigit(c: char) {
    '0' <= c <= '9'
  }

  predicate AllDigits(s: string) {
    forall i :: 0 <= i < |s| ==> IsDigit(s[i])
  }

  /** The decimal digits of n, most significant first, without leading zeros. */
  function Digits(n: nat): (s: string)
    ensures s != [] && AllDigits(s)
  {
    if n < 10 then [DigitChar(n)] else Digits(n / 10) + [DigitChar(n % 10)]
  }

  /** The value of a string of decimal digits. */
  function DigitsValue(s: string): nat
    requires AllDigits(s)
  {
    if s == [] then 0
    else DigitsValue(s[..|s| - 1]) * 10 + (s[|s| - 1] as int - '0' as int)
  }

  lemma {:induction false} DigitsValueOfDigits(n: nat)
    ensures DigitsValue(Digits(n)) == n
  {
    if n >= 10 {
      var s := Digits(n);
      assert s[..|s| - 1] == Digits(n / 10);
      DigitsValueOfDigits(n / 10);
    }
  }

  /** str(n): an optional minus sign and the digits of |n|. */
  function IntToString(n: int): (r: string)
    ensures |r| >= 1 && (r[0] == '-' <==> n < 0)
    ensures var ds := if n < 0 then r[1..] else r; ds != [] && AllDigits(ds)
  {
    if n < 0 then "-" + Digits(-n) else Digits(n)
  }

  /** int(s), restricted to surrounding white space, an optional sign and ASCII
      decimal digits; anything else is the ValueError case, None. */
  function ParseInt(s: string): (r: Option<int>)
    ensures r.Some? ==> var t := Strip(s);
      && t != []
      && (IsDigit(t[0]) || ((t[0] == '+' || t[0] == '-') && |t| > 1))
      && (forall i :: 0 < i < |t| ==> IsDigit(t[i]))
      && (r.value < 0 ==> t[0] == '-')
  {
    ParseNumeral(Strip(s))
  }

  /** int() accepts every text that is, once stripped, an optional sign and
      one or more decimal digits, and its value is that of the digits, negated
      after a minus sign. */
  lemma ParseIntAccepts(s: string)
    ensures var t := Strip(s);
      (t != [] && (IsDigit(t[0]) || ((t[0] == '+' || t[0] == '-') && |t| > 1))
        && (forall i :: 0 < i < |t| ==> IsDigit(t[i]))) ==>
      && ParseInt(s).Some?
      && var ds := if IsDigit(t[0]) then t else t[1..];
      && AllDigits(ds)
      && ParseInt(s).value == if t[0] == '-' then -(DigitsValue(ds) as int) else DigitsValue(ds) as int
  {
    var t := Strip(s);
    if t != [] && (IsDigit(t[0]) || ((t[0] == '+' || t[0] == '-') && |t| > 1))
      && (forall i :: 0 < i < |t| ==> IsDigit(t[i]))
    {
      var ds := if IsDigit(t[0]) then t else t[1..];
      assert AllDigits(ds);
      assert ParseInt(s) == ParseNumeral(t);
    }
  }

  /** int() of a text with no surrounding white space. */
  function ParseNumeral(t: string): Option<int> {
    var signed := t != [] && (t[0] == '+' || t[0] == '-');
    var body := if signed then t[1..] else t;
    if body == [] || !AllDigits(body) then None
    else
      var v: int := DigitsValue(body);
      Some(if signed && t[0] == '-' then -v else v)
  }

  /** A digit is never white space. */
  lemma DigitNotSpace(c: char)
    requires IsDigit(c)
    ensures !IsSpace(c)
  {
  }

  /** int() of an unsigned numeral. */
  lemma ParseUnsigned(ds: string)
    requires ds != [] && AllDigits(ds)
    ensures ParseInt(ds) == Some(DigitsValue(ds) as int)
  {
    DigitNotSpace(ds[0]);
    DigitNotSpace(ds[|ds| - 1]);
    StripKeeps(ds);
  }

  /** int() of a numeral with a minus sign. */
  lemma ParseNegative(ds: string)
    requires ds != [] && AllDigits(ds)
    ensures ParseInt("-" + ds) == Some(-(DigitsValue(ds) as int))
  {
    var s := "-" + ds;
    DigitNotSpace(ds[|ds| - 1]);
    assert s[|s| - 1] == ds[|ds| - 1];
    assert s[0] == '-' && !IsSpace(s[0]);
    assert Stripped(s);
    StripKeeps(s);
    assert s[1..] == ds;
    assert ParseNumeral(s) == Some(-(DigitsValue(ds) as int));
  }

  /** int(str(n)) == n. */
  lemma ParseIntToString(n: int)
    ensures ParseInt(IntToString(n)) == Some(n)
  {
    if n < 0 {
      var ds := Digits(-n);
      calc {
        ParseInt(IntToString(n));
        ParseInt("-" + ds);
        { ParseNegative(ds); }
        Some(-(DigitsValue(ds) as int));
        { DigitsValueOfDigits(-n); }
        Some(n);
      }
    } else {
      var ds := Digits(n);
      calc {
        ParseInt(IntToString(n));
        ParseInt(ds);
        { ParseUnsigned(ds); }
        Some(DigitsValue(ds) as int);
        { DigitsValueOfDigits(n); }
        Some(n);
      }
    }
  }
}
