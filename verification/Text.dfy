/** The string operations the connectors lean on: split, join, trim, decimal text. */
module Text {
  import opened Outcomes

  // ----- split and join -----

  /** `s.split(c)` for a one-character separator. */
  function Split(s: string, c: char): (parts: seq<string>)
    ensures |parts| >= 1
    ensures forall i :: 0 <= i < |parts| ==> c !in parts[i]
    ensures Join(parts, c) == s
  {
    if s == "" then [""]
    else
      var rest := Split(s[1..], c);
      if s[0] == c then
        assert [c] + s[1..] == s;
        [""] + rest
      else
        assert [[s[0]] + rest[0]] + rest[1..] != [];
        JoinHead(s[0], rest, c);
        [[s[0]] + rest[0]] + rest[1..]
  }

  /** `parts.join(c)`. */
  function Join(parts: seq<string>, c: char): string {
    if |parts| == 0 then ""
    else if |parts| == 1 then parts[0]
    else parts[0] + [c] + Join(parts[1..], c)
  }

  lemma JoinHead(x: char, parts: seq<string>, c: char)
    requires |parts| >= 1
    ensures Join([[x] + parts[0]] + parts[1..], c) == [x] + Join(parts, c)
  {
    var longer := [[x] + parts[0]] + parts[1..];
    if |parts| > 1 {
      assert longer[1..] == parts[1..];
      assert [x] + parts[0] + [c] + Join(parts[1..], c) == [x] + (parts[0] + [c] + Join(parts[1..], c));
    }
  }

  lemma {:induction false} SplitAppend(a: string, b: string, c: char)
    requires c !in a
    ensures Split(a + [c] + b, c) == [a] + Split(b, c)
  {
    if a == "" {
      assert a + [c] + b == [c] + b;
      assert ([c] + b)[1..] == b;
    } else {
      var s := a + [c] + b;
      assert s[1..] == a[1..] + [c] + b;
      SplitAppend(a[1..], b, c);
      assert [a[0]] + a[1..] == a;
      assert ([a[1..]] + Split(b, c))[1..] == Split(b, c);
    }
  }

  lemma {:induction false} SplitPlain(a: string, c: char)
    requires c !in a
    ensures Split(a, c) == [a]
  {
    if a != "" {
      SplitPlain(a[1..], c);
      assert [a[0]] + a[1..] == a;
    }
  }

  /** Splitting undoes joining, for parts that do not contain the separator. */
  lemma {:induction false} SplitJoin(parts: seq<string>, c: char)
    requires |parts| >= 1
    requires forall i :: 0 <= i < |parts| ==> c !in parts[i]
    ensures Split(Join(parts, c), c) == parts
  {
    if |parts| == 1 {
      SplitPlain(parts[0], c);
    } else {
      SplitJoin(parts[1..], c);
      SplitAppend(parts[0], Join(parts[1..], c), c);
      assert [parts[0]] + parts[1..] == parts;
    }
  }

  lemma {:induction false} SplitApart(a: string, b: string, c: char)
    ensures Split(a + [c] + b, c) == Split(a, c) + Split(b, c)
  {
    if a == "" {
      assert a + [c] + b == "" + [c] + b;
      SplitAppend("", b, c);
      assert Split("", c) == [""];
    } else {
      hide Split;
      var s := a + [c] + b;
      assert s[0] == a[0] && s[1..] == a[1..] + [c] + b;
      SplitApart(a[1..], b, c);
      SplitHead(a, c);
      SplitHead(s, c);
      ConcatHead(a[0], Split(a[1..], c), Split(b, c));
    }
  }

  lemma ConcatHead(x: char, a: seq<string>, b: seq<string>)
    requires a != []
    ensures [""] + (a + b) == [""] + a + b
    ensures [[x] + (a + b)[0]] + (a + b)[1..] == [[x] + a[0]] + a[1..] + b
  {
    assert (a + b)[0] == a[0] && (a + b)[1..] == a[1..] + b;
  }

  lemma SplitHead(s: string, c: char)
    requires s != ""
    ensures Split(s, c) == (var rest := Split(s[1..], c);
                            if s[0] == c then [""] + rest else [[s[0]] + rest[0]] + rest[1..])
  {
  }

  lemma {:induction false} LastPart(path: string, tail: string, c: char)
    requires c !in tail
    ensures Split(path + [c] + tail, c)[|Split(path + [c] + tail, c)| - 1] == tail
    ensures |Split(path + [c] + tail, c)| >= 2
  {
    if path == "" {
      assert path + [c] + tail == "" + [c] + tail;
      SplitAppend("", tail, c);
      SplitPlain(tail, c);
    } else {
      assert (path + [c] + tail)[1..] == path[1..] + [c] + tail;
      LastPart(path[1..], tail, c);
    }
  }

  lemma {:induction false} JoinSnoc(parts: seq<string>, last: string, c: char)
    requires |parts| >= 1
    ensures Join(parts + [last], c) == Join(parts, c) + [c] + last
  {
    if |parts| == 1 {
      assert (parts + [last])[1..] == [last];
    } else {
      assert (parts + [last])[1..] == parts[1..] + [last];
      JoinSnoc(parts[1..], last, c);
    }
  }

  // ----- trimming and decimal text -----

  /** The white space `String.prototype.trim` removes. */
  predicate IsSpace(c: char) {
    c in {' ', '\t', '\n', '\r', '\U{0B}', '\U{0C}', '\U{A0}', '\U{FEFF}', '\U{1680}', '\U{2028}',
          '\U{2029}', '\U{202F}', '\U{205F}', '\U{3000}'} || '\U{2000}' <= c <= '\U{200A}'
  }

  function TrimStart(s: string): (r: string)
    ensures r == "" || !IsSpace(r[0])
    ensures |r| <= |s|
  {
    if s != "" && IsSpace(s[0]) then TrimStart(s[1..]) else s
  }

  function TrimEnd(s: string): (r: string)
    ensures r == "" || !IsSpace(r[|r| - 1])
    ensures r <= s
  {
    if s != "" && IsSpace(s[|s| - 1]) then TrimEnd(s[..|s| - 1]) else s
  }

  function Trim(s: string): (r: string)
    ensures r == "" || (!IsSpace(r[0]) && !IsSpace(r[|r| - 1]))
  {
    TrimEnd(TrimStart(s))
  }

  lemma TrimmedIsFixed(s: string)
    requires s == "" || (!IsSpace(s[0]) && !IsSpace(s[|s| - 1]))
    ensures Trim(s) == s
  {
  }

  predicate IsDigit(c: char) { '0' <= c <= '9' }

  function DigitChar(d: nat): (c: char)
    requires d < 10
    ensures IsDigit(c) && DigitValue(c) == d
  {
    '0' + d as char
  }

  function DigitValue(c: char): (d: nat)
    requires IsDigit(c)
    ensures d < 10
  {
    (c - '0') as nat
  }

  /** `String(n)`. */
  function Decimal(n: nat): (s: string)
    ensures |s| > 0
    ensures forall i :: 0 <= i < |s| ==> IsDigit(s[i])
  {
    if n < 10 then [DigitChar(n)] else Decimal(n / 10) + [DigitChar(n % 10)]
  }

  /** The leading digits of `s`, as a number, after `acc` has been read. */
  function ReadDigits(s: string, acc: nat): nat {
    if s != "" && IsDigit(s[0]) then ReadDigits(s[1..], 10 * acc + DigitValue(s[0])) else acc
  }

  /** `parseInt(s, 10)`; `None` is NaN. */
  function ParseInt(s: string): Option<int> {
    var t := TrimStart(s);
    var negative := t != "" && t[0] == '-';
    var digits := if t != "" && (t[0] == '-' || t[0] == '+') then t[1..] else t;
    if digits == "" || !IsDigit(digits[0]) then None
    else
      var magnitude: int := ReadDigits(digits, 0);
      Some(if negative then -magnitude else magnitude)
  }

  lemma {:induction false} ReadDigitsAppend(s: string, last: char, acc: nat)
    requires forall i :: 0 <= i < |s| ==> IsDigit(s[i])
    requires IsDigit(last)
    ensures ReadDigits(s + [last], acc) == 10 * ReadDigits(s, acc) + DigitValue(last)
  {
    if s == "" {
      assert (s + [last])[1..] == "";
    } else {
      assert (s + [last])[1..] == s[1..] + [last];
      ReadDigitsAppend(s[1..], last, 10 * acc + DigitValue(s[0]));
    }
  }

  lemma {:induction false} ReadDecimal(n: nat)
    ensures ReadDigits(Decimal(n), 0) == n
  {
    if n < 10 {
      assert Decimal(n)[1..] == "";
    } else {
      ReadDecimal(n / 10);
      ReadDigitsAppend(Decimal(n / 10), DigitChar(n % 10), 0);
    }
  }

  /** `parseInt(String(n), 10) === n`. */
  lemma ParseDecimal(n: nat)
    ensures ParseInt(Decimal(n)) == Some(n as int)
  {
    ReadDecimal(n);
    assert IsDigit(Decimal(n)[0]) && !IsSpace(Decimal(n)[0]);
    assert TrimStart(Decimal(n)) == Decimal(n);
  }

  /** `String(n)`, for any integer. */
  function DecimalInt(n: int): (s: string)
    ensures ':' !in s
  {
    if n < 0 then "-" + Decimal(-n) else Decimal(n)
  }

  lemma ParseDecimalInt(n: int)
    ensures ParseInt(DecimalInt(n)) == Some(n)
  {
    if n >= 0 {
      ParseDecimal(n);
    } else {
      ReadDecimal(-n);
      assert DecimalInt(n)[1..] == Decimal(-n);
      assert TrimStart(DecimalInt(n)) == DecimalInt(n);
    }
  }
}
