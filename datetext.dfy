/** The text of a date as the site prints it: decimal numerals, the
    "Y-M-D h:m" layout of the five date components, and a reader for that
    layout. */
module DateText {
  import opened Options

  /** The components a date object reports: `month` is 0-based (0 is
      January), as the runtime stores it; day 1..31, hours 0..23 and
      minutes 0..59 in practice. */
  datatype DateParts = DateParts(year: int, month: nat, day: nat, hours: nat, minutes: nat)

  predicate IsDigit(c: char)
  {
    '0' <= c <= '9'
  }

  predicate AllDigits(s: string)
  {
    forall k :: 0 <= k < |s| ==> IsDigit(s[k])
  }

  function DigitChar(d: nat): (c: char)
    requires d < 10
    ensures IsDigit(c)
  {
    ('0' as int + d) as char
  }

  function DigitValue(c: char): (d: nat)
    requires IsDigit(c)
    ensures d < 10
  {
    c as int - '0' as int
  }

  /** The shortest decimal numeral of n: digits only, and never a leading
      zero unless n is zero itself. */
  function NatToString(n: nat): (s: string)
    ensures |s| >= 1 && AllDigits(s)
    ensures s[0] == '0' ==> n == 0
    ensures n < 10 <==> |s| == 1
    decreases n
  {
    if n < 10 then [DigitChar(n)] else NatToString(n / 10) + [DigitChar(n % 10)]
  }

  /** A whole number as a template string prints it: a minus sign exactly
      for negative numbers, followed by the digits of the magnitude (ReadIntOf
      reads it back). */
  function IntToString(i: int): (s: string)
    ensures |s| >= 1 && (s[0] == '-' <==> i < 0)
    ensures var digits := if i < 0 then s[1..] else s;
      |digits| >= 1 && AllDigits(digits) && (digits[0] == '0' ==> i == 0)
  {
    if i < 0 then "-" + NatToString(-i) else NatToString(i)
  }

  /** The layout "Y-M-D h:m" of the five printed numbers. */
  function Layout(y: string, m: string, d: string, h: string, mi: string): string
  {
    y + "-" + m + "-" + d + " " + h + ":" + mi
  }

  /** The separators of the layout, each before one of the four numbers
      that follow the year. */
  const Separators: seq<char> := ['-', '-', ' ', ':']

  /** Numbers printed each after its separator. */
  function FieldsText(seps: seq<char>, ns: seq<nat>): string
    requires |seps| == |ns|
    decreases |seps|
  {
    if seps == [] then [] else [seps[0]] + (NatToString(ns[0]) + FieldsText(seps[1..], ns[1..]))
  }

  /** The layout is the year followed by the other four numbers, each
      after its separator. */
  lemma LayoutAsFields(y: string, m: nat, d: nat, h: nat, mi: nat)
    ensures Layout(y, NatToString(m), NatToString(d), NatToString(h), NatToString(mi))
         == y + FieldsText(Separators, [m, d, h, mi])
  {
    var ns := [m, d, h, mi];
    var f4 := FieldsText([':'], [mi]);
    assert f4 == [':'] + (NatToString(mi) + []) by {
      assert [':'][1..] == [] && [mi][1..] == [];
    }
    var f3 := FieldsText([' ', ':'], [h, mi]);
    assert f3 == [' '] + (NatToString(h) + f4) by {
      assert [' ', ':'][1..] == [':'] && [h, mi][1..] == [mi];
    }
    var f2 := FieldsText(['-', ' ', ':'], [d, h, mi]);
    assert f2 == ['-'] + (NatToString(d) + f3) by {
      assert ['-', ' ', ':'][1..] == [' ', ':'] && [d, h, mi][1..] == [h, mi];
    }
    assert FieldsText(Separators, ns) == ['-'] + (NatToString(m) + f2) by {
      assert Separators[1..] == ['-', ' ', ':'] && ns[1..] == [d, h, mi];
    }
    Separated(y, NatToString(m), NatToString(d), NatToString(h), NatToString(mi));
  }

  /** The layout regrouped field by field, as the reader consumes it. */
  lemma Separated(y: string, m: string, d: string, h: string, mi: string)
    ensures Layout(y, m, d, h, mi)
         == y + (['-'] + (m + (['-'] + (d + ([' '] + (h + ([':'] + (mi + []))))))))
  {
  }

  // A reader for the layout.

  /** Length of the run of digits at the front of s. */
  function DigitRun(s: string): (k: nat)
    ensures k <= |s| && AllDigits(s[..k])
  {
    if s == [] || !IsDigit(s[0]) then 0 else 1 + DigitRun(s[1..])
  }

  /** The number a string of digits denotes. */
  function DigitsValue(ds: string): nat
    requires AllDigits(ds)
  {
    if ds == [] then 0 else DigitsValue(ds[..|ds| - 1]) * 10 + DigitValue(ds[|ds| - 1])
  }

  /** Reads a non-empty run of digits written without a leading zero (a
      lone "0" is allowed); returns its value and what follows. */
  function ReadNat(s: string): Option<(nat, string)>
  {
    var k := DigitRun(s);
    if k == 0 || (k > 1 && s[0] == '0') then None else Some((DigitsValue(s[..k]), s[k..]))
  }

  /** Reads a whole number with an optional leading minus sign; "-0" is
      not a number the printer produces, so it is rejected. */
  function ReadInt(s: string): Option<(int, string)>
  {
    var negative := |s| > 0 && s[0] == '-';
    match ReadNat(if negative then s[1..] else s)
    case None => None
    case Some((n, rest)) =>
      if negative && n == 0 then None
      else Some((if negative then -(n as int) else n as int, rest))
  }

  /** Reads an expected separator followed by a number. */
  function ReadField(sep: char, s: string): Option<(nat, string)>
  {
    if |s| > 0 && s[0] == sep then ReadNat(s[1..]) else None
  }

  /** Reads one number after each separator, in order. */
  function ReadFields(seps: seq<char>, s: string): (r: Option<(seq<nat>, string)>)
    ensures r.Some? ==> |r.value.0| == |seps|
    decreases |seps|
  {
    if seps == [] then Some(([], s))
    else
      match ReadField(seps[0], s)
      case None => None
      case Some((n, rest)) =>
        match ReadFields(seps[1..], rest)
        case None => None
        case Some((ns, tail)) => Some(([n] + ns, tail))
  }

  /** Parses "Y-M-D h:m" back into components, turning the calendar month
      back into the 0-based one. */
  function ParseBirthtime(s: string): Option<DateParts>
  {
    match ReadInt(s)
    case None => None
    case Some((year, r1)) =>
      match ReadFields(Separators, r1)
      case None => None
      case Some((ns, rest)) =>
        if ns[0] == 0 || rest != [] then None
        else Some(DateParts(year, ns[0] - 1, ns[1], ns[2], ns[3]))
  }

  lemma {:induction false} DigitsValueOf(n: nat)
    ensures DigitsValue(NatToString(n)) == n
    decreases n
  {
    if n >= 10 {
      DigitsValueOf(n / 10);
      var s := NatToString(n);
      assert s[..|s| - 1] == NatToString(n / 10);
    }
  }

  lemma {:induction false} DigitRunOf(ds: string, rest: string)
    requires AllDigits(ds)
    requires rest == [] || !IsDigit(rest[0])
    ensures DigitRun(ds + rest) == |ds|
    decreases |ds|
  {
    if ds != [] {
      assert (ds + rest)[1..] == ds[1..] + rest;
      DigitRunOf(ds[1..], rest);
    }
  }

  /** A numeral is read back as its number, up to the first non-digit. */
  lemma ReadNatOf(n: nat, rest: string)
    requires rest == [] || !IsDigit(rest[0])
    ensures ReadNat(NatToString(n) + rest) == Some((n, rest))
  {
    var s := NatToString(n);
    DigitRunOf(s, rest);
    SplitAt(s, rest);
    DigitsValueOf(n);
  }

  lemma ReadIntOf(i: int, rest: string)
    requires rest == [] || !IsDigit(rest[0])
    ensures ReadInt(IntToString(i) + rest) == Some((i, rest))
  {
    if i < 0 {
      ReadNegativeOf(-i, rest);
    } else {
      var s, digits := IntToString(i) + rest, NatToString(i);
      assert s[0] == digits[0] && IsDigit(digits[0]);
      ReadNatOf(i, rest);
    }
  }

  lemma ReadNegativeOf(n: nat, rest: string)
    requires n > 0
    requires rest == [] || !IsDigit(rest[0])
    ensures ReadInt("-" + NatToString(n) + rest) == Some((-(n as int), rest))
  {
    Signed('-', NatToString(n), rest);
    ReadNatOf(n, rest);
  }

  lemma SplitAt(a: string, b: string)
    ensures (a + b)[..|a|] == a && (a + b)[|a|..] == b
  {
  }

  lemma Signed(sign: char, a: string, b: string)
    ensures |[sign] + a + b| > 0 && ([sign] + a + b)[0] == sign
    ensures ([sign] + a + b)[1..] == a + b
  {
    assert [sign] + a + b == [sign] + (a + b);
  }

  lemma ReadFieldOf(sep: char, n: nat, rest: string)
    requires rest == [] || !IsDigit(rest[0])
    ensures ReadField(sep, [sep] + (NatToString(n) + rest)) == Some((n, rest))
  {
    ReadNatOf(n, rest);
    assert ([sep] + (NatToString(n) + rest))[1..] == NatToString(n) + rest;
  }

  /** Printed fields are read back as their numbers, up to the first
      non-digit after them. */
  lemma {:induction false} ReadFieldsOf(seps: seq<char>, ns: seq<nat>, rest: string)
    requires |seps| == |ns| && forall k :: 0 <= k < |seps| ==> !IsDigit(seps[k])
    requires rest == [] || !IsDigit(rest[0])
    ensures ReadFields(seps, FieldsText(seps, ns) + rest) == Some((ns, rest))
    decreases |seps|
  {
    var s := FieldsText(seps, ns) + rest;
    if seps != [] {
      var tail := FieldsText(seps[1..], ns[1..]) + rest;
      FirstFieldOf(seps, ns, rest);
      ReadFieldsOf(seps[1..], ns[1..], rest);
      ReadFieldsCons(seps, s, ns[0], tail, ns[1..], rest);
      HeadAndTail(ns);
    } else {
      assert s == rest;
    }
  }

  /** The first printed field is read back as its number, up to the
      fields after it. */
  lemma FirstFieldOf(seps: seq<char>, ns: seq<nat>, rest: string)
    requires |seps| == |ns| && seps != [] && forall k :: 0 <= k < |seps| ==> !IsDigit(seps[k])
    requires rest == [] || !IsDigit(rest[0])
    ensures ReadField(seps[0], FieldsText(seps, ns) + rest)
         == Some((ns[0], FieldsText(seps[1..], ns[1..]) + rest))
  {
    FieldsTextUnfold(seps, ns, rest);
    FieldsThenNonDigit(seps[1..], ns[1..], rest);
    ReadFieldOf(seps[0], ns[0], FieldsText(seps[1..], ns[1..]) + rest);
  }

  /** Printed fields, split after their first number. */
  lemma FieldsTextUnfold(seps: seq<char>, ns: seq<nat>, rest: string)
    requires |seps| == |ns| && seps != []
    ensures FieldsText(seps, ns) + rest
         == [seps[0]] + (NatToString(ns[0]) + (FieldsText(seps[1..], ns[1..]) + rest))
  {
    Regrouped(seps[0], NatToString(ns[0]), FieldsText(seps[1..], ns[1..]), rest);
  }

  lemma Regrouped(sep: char, head: string, more: string, rest: string)
    ensures ([sep] + (head + more)) + rest == [sep] + (head + (more + rest))
  {
  }

  /** Printed fields followed by a non-digit start with a non-digit. */
  lemma FieldsThenNonDigit(seps: seq<char>, ns: seq<nat>, rest: string)
    requires |seps| == |ns| && forall k :: 0 <= k < |seps| ==> !IsDigit(seps[k])
    requires rest == [] || !IsDigit(rest[0])
    ensures var tail := FieldsText(seps, ns) + rest; tail == [] || !IsDigit(tail[0])
  {
    if seps != [] {
      FieldsTextStart(seps, ns);
    }
  }

  /** The field reader reads the first field, then the others from what
      follows it. */
  lemma ReadFieldsCons(seps: seq<char>, s: string, n: nat, rest: string, ns: seq<nat>, tail: string)
    requires seps != [] && ReadField(seps[0], s) == Some((n, rest))
    requires ReadFields(seps[1..], rest) == Some((ns, tail))
    ensures ReadFields(seps, s) == Some(([n] + ns, tail))
  {
  }

  lemma HeadAndTail(ns: seq<nat>)
    requires ns != []
    ensures [ns[0]] + ns[1..] == ns
  {
  }

  lemma FieldsTextStart(seps: seq<char>, ns: seq<nat>)
    requires |seps| == |ns| && seps != []
    ensures |FieldsText(seps, ns)| > 0 && FieldsText(seps, ns)[0] == seps[0]
  {
  }

  /** The fields of a date, printed and laid out as "Y-M-D h:m", are read
      back as that date. */
  lemma FieldsReadBack(d: DateParts)
    ensures ParseBirthtime(IntToString(d.year) + FieldsText(Separators, [d.month + 1, d.day, d.hours, d.minutes]))
         == Some(d)
  {
    var ns := [d.month + 1, d.day, d.hours, d.minutes];
    var text := FieldsText(Separators, ns);
    var s := IntToString(d.year) + text;
    assert ReadInt(s) == Some((d.year, text)) by {
      FieldsTextStart(Separators, ns);
      ReadIntOf(d.year, text);
    }
    assert ReadFields(Separators, text) == Some((ns, [])) by {
      ReadFieldsOf(Separators, ns, []);
      assert text + [] == text;
    }
    ParseOf(s, d.year, text, ns);
  }

  /** The date reader succeeds once the year and then the four fields are
      read and nothing is left over. */
  lemma ParseOf(s: string, year: int, r1: string, ns: seq<nat>)
    requires ReadInt(s) == Some((year, r1)) && ReadFields(Separators, r1) == Some((ns, []))
    requires |ns| == 4 && ns[0] > 0
    ensures ParseBirthtime(s) == Some(DateParts(year, ns[0] - 1, ns[1], ns[2], ns[3]))
  {
  }

  /** A field written with a leading zero, such as "05", is not read. */
  lemma ZeroPaddingRejected(c: char, t: string)
    requires IsDigit(c)
    ensures ReadNat(['0', c] + t).None?
  {
    var s := ['0', c] + t;
    assert s[1..] == [c] + t && ([c] + t)[1..] == t;
    assert DigitRun(s) == 2 + DigitRun(t);
  }

  // The converse: the reader accepts printed numerals only.

  /** A digit run with a nonzero first digit denotes a positive number. */
  lemma {:induction false} LeadingDigitPositive(ds: string)
    requires |ds| >= 1 && AllDigits(ds) && ds[0] != '0'
    ensures DigitsValue(ds) >= 1
    decreases |ds|
  {
    if |ds| > 1 {
      LeadingDigitPositive(ds[..|ds| - 1]);
    }
  }

  /** A numeral without a leading zero is the one NatToString prints for
      its value. */
  lemma {:induction false} NumeralOfValue(ds: string)
    requires |ds| >= 1 && AllDigits(ds) && (|ds| > 1 ==> ds[0] != '0')
    ensures NatToString(DigitsValue(ds)) == ds
    decreases |ds|
  {
    var init, c := ds[..|ds| - 1], ds[|ds| - 1];
    assert ds == init + [c];
    if |ds| > 1 {
      LeadingDigitPositive(init);
      NumeralOfValue(init);
    }
  }

  /** Whatever the number reader accepts is a printed numeral followed by
      the rest it returns. */
  lemma ReadNatInverse(s: string)
    requires ReadNat(s).Some?
    ensures s == NatToString(ReadNat(s).value.0) + ReadNat(s).value.1
  {
    var k := DigitRun(s);
    NumeralOfValue(s[..k]);
    assert s == s[..k] + s[k..];
  }

  lemma ReadIntInverse(s: string)
    requires ReadInt(s).Some?
    ensures s == IntToString(ReadInt(s).value.0) + ReadInt(s).value.1
  {
    if |s| > 0 && s[0] == '-' {
      ReadNegativeInverse(s);
    } else {
      ReadNatInverse(s);
    }
  }

  lemma ReadNegativeInverse(s: string)
    requires ReadInt(s).Some? && |s| > 0 && s[0] == '-'
    ensures s == IntToString(ReadInt(s).value.0) + ReadInt(s).value.1
  {
    var (n, r) := ReadNat(s[1..]).value;
    ReadIntNegative(s, n, r);
    ReadNatInverse(s[1..]);
    Prefixed(s, NatToString(n), r);
  }

  lemma Prefixed(s: string, a: string, b: string)
    requires |s| > 0 && s[1..] == a + b
    ensures s == [s[0]] + a + b
  {
    assert s == [s[0]] + s[1..];
  }

  /** What the reader makes of a minus sign and a numeral. */
  lemma ReadIntNegative(s: string, n: nat, r: string)
    requires ReadInt(s).Some? && |s| > 0 && s[0] == '-' && ReadNat(s[1..]) == Some((n, r))
    ensures n > 0 && ReadInt(s) == Some((-(n as int), r))
    ensures IntToString(ReadInt(s).value.0) == "-" + NatToString(n)
  {
  }

  lemma ReadFieldInverse(sep: char, s: string)
    requires ReadField(sep, s).Some?
    ensures s == [sep] + (NatToString(ReadField(sep, s).value.0) + ReadField(sep, s).value.1)
  {
    ReadNatInverse(s[1..]);
    assert s == [sep] + s[1..];
  }

  /** Whatever the field reader accepts is printed fields followed by the
      rest it returns. */
  lemma {:induction false} ReadFieldsInverse(seps: seq<char>, s: string)
    requires ReadFields(seps, s).Some?
    ensures s == FieldsText(seps, ReadFields(seps, s).value.0) + ReadFields(seps, s).value.1
    decreases |seps|
  {
    if seps != [] {
      assert ReadField(seps[0], s).Some?;
      var (n, rest) := ReadField(seps[0], s).value;
      assert ReadFields(seps[1..], rest).Some?;
      var (ns, tail) := ReadFields(seps[1..], rest).value;
      assert ReadFields(seps, s).value == ([n] + ns, tail);
      assert s == [seps[0]] + (NatToString(n) + rest) by { ReadFieldInverse(seps[0], s); }
      assert rest == FieldsText(seps[1..], ns) + tail by { ReadFieldsInverse(seps[1..], rest); }
      assert FieldsText(seps, [n] + ns) == [seps[0]] + (NatToString(n) + FieldsText(seps[1..], ns)) by {
        assert ([n] + ns)[0] == n && ([n] + ns)[1..] == ns;
      }
    }
  }

  /** A string read as a date was read as its year, then its four fields
      with nothing left over: the converse of ParseOf. */
  lemma ParsedParts(s: string, d: DateParts)
    requires ParseBirthtime(s) == Some(d)
    ensures ReadInt(s).Some? && ReadInt(s).value.0 == d.year
    ensures ReadFields(Separators, ReadInt(s).value.1) == Some(([d.month + 1, d.day, d.hours, d.minutes], []))
  {
    match ReadInt(s)
    case Some((y, r1)) =>
      match ReadFields(Separators, r1)
      case Some((ns, rest)) =>
        assert ns == [d.month + 1, d.day, d.hours, d.minutes];
  }

  /** The only string read as a date is that date's printed layout. */
  lemma ParsedLayout(s: string, d: DateParts)
    requires ParseBirthtime(s) == Some(d)
    ensures s == IntToString(d.year) + FieldsText(Separators, [d.month + 1, d.day, d.hours, d.minutes])
  {
    ParsedParts(s, d);
    var r1 := ReadInt(s).value.1;
    assert s == IntToString(d.year) + r1 by { ReadIntInverse(s); }
    assert r1 == FieldsText(Separators, [d.month + 1, d.day, d.hours, d.minutes]) + [] by {
      ReadFieldsInverse(Separators, r1);
    }
  }
}
