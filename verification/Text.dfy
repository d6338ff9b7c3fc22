/** Numbers as digits and lists as separated text: `toString(radix)`, `parseInt`, `split` and `join`. */
module Text {

  // ---- Digits ----

  function DigitChar(d: nat): (c: char)
    requires d < 16
    ensures DigitValue(c) == d
  {
    if d < 10 then '0' + d as char else 'a' + (d - 10) as char
  }

  /** The value of a hexadecimal digit in either case; 16 for any other character. */
  function DigitValue(c: char): (d: nat)
    ensures d <= 16
  {
    if '0' <= c <= '9' then (c - '0') as nat
    else if 'a' <= c <= 'f' then (c - 'a') as nat + 10
    else if 'A' <= c <= 'F' then (c - 'A') as nat + 10
    else 16
  }

  predicate AreDigits(s: string, base: nat) {
    s != "" && forall i :: 0 <= i < |s| ==> DigitValue(s[i]) < base
  }

  /** The value of a text of digits. */
  function Parse(s: string, base: nat): nat {
    if s == "" then 0 else Parse(s[..|s| - 1], base) * base + DigitValue(s[|s| - 1])
  }

  /** The shortest text of a number. */
  function Digits(n: nat, base: nat): string
    requires 2 <= base <= 16
  {
    if n < base then [DigitChar(n)] else Digits(n / base, base) + [DigitChar(n % base)]
  }

  lemma ParseAppend(front: string, c: char, base: nat)
    ensures Parse(front + [c], base) == Parse(front, base) * base + DigitValue(c)
  {
    assert (front + [c])[..|front|] == front;
  }

  lemma DivMod(n: nat, base: nat)
    requires base >= 2
    ensures n / base * base + n % base == n && n % base < base
    ensures n >= base ==> n / base < n
  {
  }

  lemma {:induction false} DigitsParseBack(n: nat, base: nat)
    requires 2 <= base <= 16
    ensures AreDigits(Digits(n, base), base) && Parse(Digits(n, base), base) == n
    decreases n
  {
    if n < base {
      ParseAppend("", DigitChar(n), base);
      assert "" + [DigitChar(n)] == [DigitChar(n)];
    } else {
      DivMod(n, base);
      DigitsParseBack(n / base, base);
      ParseAppend(Digits(n / base, base), DigitChar(n % base), base);
    }
  }

  /** A 16-bit number takes at most four hexadecimal digits. */
  lemma HexIsShort(n: nat)
    requires n < 0x1_0000
    ensures |Digits(n, 16)| <= 4
  {
    if n >= 16 && n / 16 >= 16 && n / 16 / 16 >= 16 {
      assert n / 16 / 16 / 16 < 16;
      assert |Digits(n / 16 / 16 / 16, 16)| == 1;
      assert |Digits(n / 16 / 16, 16)| == 2;
      assert |Digits(n / 16, 16)| == 3;
    } else if n >= 16 && n / 16 >= 16 {
      assert |Digits(n / 16 / 16, 16)| == 1;
      assert |Digits(n / 16, 16)| == 2;
    }
  }

  /** A byte takes at most three decimal digits. */
  lemma DecimalIsShort(n: nat)
    requires n < 256
    ensures |Digits(n, 10)| <= 3
  {
    if n >= 10 && n / 10 >= 10 {
      assert |Digits(n / 10 / 10, 10)| == 1;
      assert |Digits(n / 10, 10)| == 2;
    }
  }

  function HexLimit(length: nat): nat
    requires length <= 4
  {
    match length
    case 0 => 1
    case 1 => 0x10
    case 2 => 0x100
    case 3 => 0x1000
    case 4 => 0x1_0000
  }

  lemma {:induction false} ShortHexIsSmall(s: string)
    requires |s| <= 4 && forall i :: 0 <= i < |s| ==> DigitValue(s[i]) < 16
    ensures Parse(s, 16) < HexLimit(|s|)
  {
    if s != "" {
      ShortHexIsSmall(s[..|s| - 1]);
    }
  }

  // ---- Separated lists ----

  predicate Begins(s: string, separator: string) {
    |separator| <= |s| && s[..|separator|] == separator
  }

  /** `split`: the separator is taken leftmost first and never overlaps itself. */
  function Split(s: string, separator: string): (parts: seq<string>)
    requires separator != ""
    ensures parts != []
    decreases |s|
  {
    if s == "" then [""]
    else if Begins(s, separator) then [""] + Split(s[|separator|..], separator)
    else
      var rest := Split(s[1..], separator);
      [[s[0]] + rest[0]] + rest[1..]
  }

  function Join(parts: seq<string>, separator: char): string {
    if parts == [] then "" else if |parts| == 1 then parts[0] else parts[0] + [separator] + Join(parts[1..], separator)
  }

  /** The separator begins nowhere in the head of a text. */
  ghost predicate Clear(head: string, tail: string, separator: string) {
    head == "" || (!Begins(head + tail, separator) && Clear(head[1..], tail, separator))
  }

  lemma {:induction false} SplitAtFirst(head: string, separator: string, tail: string)
    requires separator != "" && Clear(head, separator + tail, separator)
    ensures Split(head + (separator + tail), separator) == [head] + Split(tail, separator)
  {
    var s := head + (separator + tail);
    if head == "" {
      assert s == separator + tail;
      assert s[..|separator|] == separator && s[|separator|..] == tail;
    } else {
      SplitAtFirst(head[1..], separator, tail);
      assert s[1..] == head[1..] + (separator + tail) && s[0] == head[0];
      assert [head[0]] + head[1..] == head;
      var rest := Split(s[1..], separator);
      assert rest[0] == head[1..] && rest[1..] == Split(tail, separator);
    }
  }

  lemma {:induction false} SplitNowhere(s: string, separator: string)
    requires separator != "" && Clear(s, "", separator)
    ensures Split(s, separator) == [s]
  {
    assert s + "" == s;
    if s != "" {
      SplitNowhere(s[1..], separator);
      assert [s[0]] + s[1..] == s;
    }
  }

  lemma {:induction false} ClearWithout(head: string, tail: string, separator: string)
    requires separator != "" && separator[0] !in head
    ensures Clear(head, tail, separator)
  {
    if head != "" {
      assert head[0] in head;
      ClearWithout(head[1..], tail, separator);
    }
  }

  ghost predicate NoneHolds(parts: seq<string>, c: char) {
    forall i :: 0 <= i < |parts| ==> c !in parts[i]
  }

  /** What was joined splits back. */
  lemma {:induction false} JoinSplitsBack(parts: seq<string>, separator: char)
    requires parts != [] && NoneHolds(parts, separator)
    ensures Split(Join(parts, separator), [separator]) == parts
    decreases |parts|
  {
    var head, rest := parts[0], parts[1..];
    if rest == [] {
      ClearWithout(head, "", [separator]);
      SplitNowhere(head, [separator]);
    } else {
      var tail := Join(rest, separator);
      ClearWithout(head, [separator] + tail, [separator]);
      SplitAtFirst(head, [separator], tail);
      assert head + [separator] + tail == head + ([separator] + tail);
      assert forall i :: 0 <= i < |rest| ==> rest[i] == parts[i + 1];
      JoinSplitsBack(rest, separator);
      assert [head] + rest == parts;
    }
  }

  lemma {:induction false} JoinHolds(parts: seq<string>, separator: char, c: char)
    requires c != separator && NoneHolds(parts, c)
    ensures c !in Join(parts, separator)
    decreases |parts|
  {
    if |parts| > 1 {
      JoinHolds(parts[1..], separator, c);
    }
  }

  lemma {:induction false} JoinConcatenated(front: seq<string>, back: seq<string>, separator: char)
    requires front != [] && back != []
    ensures Join(front + back, separator) == Join(front, separator) + [separator] + Join(back, separator)
    decreases |front|
  {
    if |front| == 1 {
      assert (front + back)[1..] == back;
    } else {
      assert (front + back)[1..] == front[1..] + back;
      JoinConcatenated(front[1..], back, separator);
      var rest := Join(front[1..], separator);
      assert front[0] + [separator] + (rest + [separator] + Join(back, separator))
          == front[0] + [separator] + rest + [separator] + Join(back, separator);
    }
  }

  /** What the head does not hold, and what begins nowhere in the rest, begins nowhere. */
  lemma {:induction false} ClearTogether(head: string, middle: string, tail: string, separator: string)
    requires Clear(head, middle + tail, separator) && Clear(middle, tail, separator)
    ensures Clear(head + middle, tail, separator)
  {
    if head == "" {
      assert head + middle == middle;
    } else {
      assert (head + middle)[1..] == head[1..] + middle;
      assert head + middle + tail == head + (middle + tail);
      ClearTogether(head[1..], middle, tail, separator);
    }
  }

  /** Splitting loses nothing but separators. */
  lemma {:induction false} SplitKeeps(s: string, separator: string, c: char)
    requires separator != "" && c in s && c !in separator
    ensures exists i :: 0 <= i < |Split(s, separator)| && c in Split(s, separator)[i]
    decreases |s|
  {
    var parts := Split(s, separator);
    if Begins(s, separator) {
      assert s == separator + s[|separator|..];
      SplitKeeps(s[|separator|..], separator, c);
      var rest := Split(s[|separator|..], separator);
      var i :| 0 <= i < |rest| && c in rest[i];
      assert parts[i + 1] == rest[i];
    } else {
      var rest := Split(s[1..], separator);
      assert parts[0] == [s[0]] + rest[0];
      if s[0] == c {
        assert c in parts[0];
      } else {
        assert s == [s[0]] + s[1..];
        SplitKeeps(s[1..], separator, c);
        var i :| 0 <= i < |rest| && c in rest[i];
        assert i > 0 ==> parts[i] == rest[i];
        assert c in parts[i];
      }
    }
  }
}
