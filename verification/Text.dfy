/**
 Strings as the sources see them: sequences of Unicode scalar values with a
 UTF-8 byte length, decimal numerals, and splitting at a separator.
 */
module Text {

  datatype Option<+T> = None | Some(value: T)

  // ---------- UTF-8 lengths ----------

  /** Bytes one scalar value takes in UTF-8. */
  function CharBytes(c: char): (n: nat)
    ensures 1 <= n <= 4
  {
    var code := c as int;
    if code < 0x80 then 1 else if code < 0x800 then 2 else if code < 0x1_0000 then 3 else 4
  }

  /** Byte length of a string, what `str::len` answers. */
  function ByteLen(s: string): nat {
    if s == "" then 0 else CharBytes(s[0]) + ByteLen(s[1..])
  }

  lemma {:induction false} ByteLenAppend(a: string, b: string)
    ensures ByteLen(a + b) == ByteLen(a) + ByteLen(b)
  {
    if a == "" {
      assert a + b == b;
    } else {
      assert (a + b)[1..] == a[1..] + b;
      ByteLenAppend(a[1..], b);
    }
  }

  /** UTF-8 takes one byte up to U+007F, two up to U+07FF, three up to U+FFFF and
      four beyond (section 3 of RFC 3629). */
  lemma {:induction false} ByteLenIs(a: string, c: char, b: string)
    ensures ByteLen("") == 0 && ByteLen(a + [c] + b) == ByteLen(a) + ByteLen([c]) + ByteLen(b)
    ensures ByteLen([c]) == if c <= '\U{7F}' then 1 else if c <= '\U{7FF}' then 2 else if c <= '\U{FFFF}' then 3 else 4
  {
    ByteLenAppend(a + [c], b);
    ByteLenAppend(a, [c]);
    assert [c][1..] == "";
  }

  /** The character index at byte offset `n`, or `None` when the offset lies
      inside a character or past the end: what `str::get(..n)` decides. */
  function BoundaryAt(s: string, n: nat): (k: Option<nat>)
    ensures k.Some? ==> k.value <= |s|
  {
    if n == 0 then Some(0)
    else if s == "" || n < CharBytes(s[0]) then None
    else match BoundaryAt(s[1..], n - CharBytes(s[0]))
         case None => None
         case Some(k) => Some(k + 1)
  }

  lemma {:induction false} BoundaryIff(s: string, n: nat, k: nat)
    ensures BoundaryAt(s, n) == Some(k) <==> k <= |s| && ByteLen(s[..k]) == n
  {
    if n == 0 || s == "" || k == 0 || k > |s| {
      if 0 < k <= |s| && n == 0 {
        assert s[..k][0] == s[0];
      }
      if s == "" && k == 0 {
        assert s[..k] == "";
      }
    } else {
      assert s[..k][0] == s[0] && s[..k][1..] == s[1..][..k - 1];
      if CharBytes(s[0]) <= n {
        BoundaryIff(s[1..], n - CharBytes(s[0]), k - 1);
      }
    }
  }

  // ---------- trimming ----------

  /** The Unicode White_Space property. */
  predicate IsWhitespace(c: char) {
    var n := c as int;
    || 0x9 <= n <= 0xD || n == 0x20 || n == 0x85 || n == 0xA0 || n == 0x1680
    || 0x2000 <= n <= 0x200A || n == 0x2028 || n == 0x2029 || n == 0x202F || n == 0x205F || n == 0x3000
  }

  function TrimStart(s: string): string {
    if s != "" && IsWhitespace(s[0]) then TrimStart(s[1..]) else s
  }

  function TrimEnd(s: string): string {
    if s != "" && IsWhitespace(s[|s| - 1]) then TrimEnd(s[..|s| - 1]) else s
  }

  function Trim(s: string): string { TrimEnd(TrimStart(s)) }

  predicate Blank(s: string) { forall i :: 0 <= i < |s| ==> IsWhitespace(s[i]) }

  /** Trimming removes all white space at both ends and nothing else. */
  lemma {:induction false} TrimIs(s: string)
    ensures exists a, b :: s == a + Trim(s) + b && Blank(a) && Blank(b)
    ensures Trim(s) != "" ==> !IsWhitespace(Trim(s)[0]) && !IsWhitespace(Trim(s)[|Trim(s)| - 1])
  {
    var t := TrimStart(s);
    var k := TrimStartIs(s);
    var n := TrimEndIs(t);
    assert Blank(s[..k]) && Blank(t[n..]) && s == s[..k] + Trim(s) + t[n..];
  }

  lemma {:induction false} TrimStartIs(s: string) returns (a: nat)
    ensures a <= |s| && TrimStart(s) == s[a..]
    ensures forall i :: 0 <= i < a ==> IsWhitespace(s[i])
    ensures TrimStart(s) != "" ==> !IsWhitespace(TrimStart(s)[0])
  {
    a := 0;
    if s != "" && IsWhitespace(s[0]) {
      var b := TrimStartIs(s[1..]);
      a := b + 1;
    }
  }

  lemma {:induction false} TrimEndIs(s: string) returns (n: nat)
    ensures n <= |s| && TrimEnd(s) == s[..n]
    ensures forall i :: n <= i < |s| ==> IsWhitespace(s[i])
    ensures n > 0 ==> !IsWhitespace(s[n - 1])
  {
    n := |s|;
    if s != "" && IsWhitespace(s[|s| - 1]) {
      n := TrimEndIs(s[..|s| - 1]);
    }
  }

  /** The 25 characters with the property. */
  lemma {:induction false} WhitespaceIff(c: char)
    ensures IsWhitespace(c) <==>
            c in "\t\n\U{B}\U{C}\r \U{85}\U{A0}\U{1680}\U{2028}\U{2029}\U{202F}\U{205F}\U{3000}"
            || '\U{2000}' <= c <= '\U{200A}'
  {
  }

  // ---------- decimal numerals ----------

  predicate IsDigit(c: char) { '0' <= c <= '9' }

  function Digit(d: nat): (c: char)
    requires d < 10
    ensures IsDigit(c)
  {
    '0' + d as char
  }

  function DigitValue(c: char): (d: nat)
    requires IsDigit(c)
    ensures d < 10 && Digit(d) == c
  {
    (c - '0') as int
  }

  /** A number as `{n}` prints it. */
  function Decimal(n: nat): (s: string)
    ensures |s| > 0 && forall i :: 0 <= i < |s| ==> IsDigit(s[i])
    ensures s[0] == '0' ==> n == 0 && s == "0"
  {
    if n < 10 then [Digit(n)] else Decimal(n / 10) + [Digit(n % 10)]
  }

  lemma {:induction false} DigitIs(d: nat)
    requires d < 10
    ensures Digit(d) == "0123456789"[d] && DigitValue("0123456789"[d]) == d
  {
  }

  /** The value of a non-empty run of digits. */
  function ParseDigits(s: string): Option<nat> {
    if s == "" then None
    else if !IsDigit(s[|s| - 1]) then None
    else if |s| == 1 then Some(DigitValue(s[0]))
    else match ParseDigits(s[..|s| - 1])
         case None => None
         case Some(n) => Some(10 * n + DigitValue(s[|s| - 1]))
  }

  lemma {:induction false} ParseDecimal(n: nat)
    ensures ParseDigits(Decimal(n)) == Some(n)
  {
    if n < 10 {
    } else {
      var s := Decimal(n);
      assert s[..|s| - 1] == Decimal(n / 10);
      ParseDecimal(n / 10);
    }
  }

  lemma {:induction false} DecimalSnoc(n: nat, c: char)
    requires n > 0 && IsDigit(c)
    ensures Decimal(10 * n + DigitValue(c)) == Decimal(n) + [c]
  {
    assert (10 * n + DigitValue(c)) / 10 == n && (10 * n + DigitValue(c)) % 10 == DigitValue(c);
  }

  /** A numeral without a leading zero is the printed form of its value. */
  lemma {:induction false} DecimalParse(s: string)
    requires ParseDigits(s).Some? && (|s| == 1 || s[0] != '0')
    ensures Decimal(ParseDigits(s).value) == s
    ensures ParseDigits(s).value > 0 || s == "0"
  {
    if |s| > 1 {
      var init := s[..|s| - 1];
      DecimalParse(init);
      assert init[0] == s[0];
      DecimalSnoc(ParseDigits(init).value, s[|s| - 1]);
      assert s == init + [s[|s| - 1]];
    } else {
      assert s == [s[0]];
    }
  }

  // ---------- hexadecimal digits ----------

  function HexDigit(n: nat, upper: bool): (c: char)
    requires n < 16
    ensures HexValue(c) == Some(n)
  {
    if n < 10 then '0' + n as char else (if upper then 'A' else 'a') + (n - 10) as char
  }

  function HexValue(c: char): (n: Option<nat>)
    ensures n.Some? ==> n.value < 16
  {
    if '0' <= c <= '9' then Some((c - '0') as int)
    else if 'A' <= c <= 'F' then Some((c - 'A') as int + 10)
    else if 'a' <= c <= 'f' then Some((c - 'a') as int + 10)
    else None
  }

  // ---------- induction from the end ----------

  /** What holds of nothing and survives one more element holds of all. */
  lemma {:induction false} ByLast<T(!new)>(s: seq<T>, holds: seq<T> -> bool)
    requires holds([]) && forall init, last :: holds(init) ==> holds(init + [last])
    ensures holds(s)
  {
    if s == [] {
    } else {
      var n := |s| - 1;
      ByLast(s[..n], holds);
      assert s[..n] + [s[n]] == s;
    }
  }

  // ---------- splitting ----------

  /** The pieces between separators, as `split` yields them. */
  function Split<T(==)>(s: seq<T>, sep: T): (parts: seq<seq<T>>)
    ensures |parts| > 0
  {
    if s == [] then [[]]
    else
      var rest := Split(s[1..], sep);
      if s[0] == sep then [[]] + rest else [[s[0]] + rest[0]] + rest[1..]
  }

  /** One more element in front of some pieces. */
  function Prepended<T(==)>(x: T, parts: seq<seq<T>>, sep: T): seq<seq<T>>
    requires |parts| > 0
  {
    if x == sep then [[]] + parts else [[x] + parts[0]] + parts[1..]
  }

  lemma {:induction false} SplitCons<T>(x: T, s: seq<T>, sep: T)
    ensures Split([x] + s, sep) == Prepended(x, Split(s, sep), sep)
  {
    assert ([x] + s)[1..] == s;
  }

  lemma {:induction false} PrependedAppend<T>(x: T, a: seq<seq<T>>, b: seq<seq<T>>, sep: T)
    requires |a| > 0
    ensures Prepended(x, a + b, sep) == Prepended(x, a, sep) + b
  {
    assert (a + b)[1..] == a[1..] + b;
  }

  lemma {:induction false} SplitAppend<T>(a: seq<T>, sep: T, b: seq<T>)
    ensures Split(a + [sep] + b, sep) == Split(a, sep) + Split(b, sep)
  {
    if a == [] {
      assert a + [sep] + b == [sep] + b;
      SplitCons(sep, b, sep);
    } else {
      var rest := a[1..];
      SplitAppend(rest, sep, b);
      assert a == [a[0]] + rest && a + [sep] + b == [a[0]] + (rest + [sep] + b);
      SplitCons(a[0], rest + [sep] + b, sep);
      SplitCons(a[0], rest, sep);
      PrependedAppend(a[0], Split(rest, sep), Split(b, sep), sep);
    }
  }

  lemma {:induction false} SplitWhole<T>(s: seq<T>, sep: T)
    requires sep !in s
    ensures Split(s, sep) == [s]
  {
    if s == [] {
    } else {
      SplitWhole(s[1..], sep);
      assert s == [s[0]] + s[1..];
    }
  }

  /** The pieces joined by single separators. */
  function Join<T>(parts: seq<seq<T>>, sep: T): seq<T> {
    if parts == [] then [] else if |parts| == 1 then parts[0]
    else parts[0] + [sep] + Join(parts[1..], sep)
  }

  lemma {:induction false} SplitJoin<T>(parts: seq<seq<T>>, sep: T)
    requires |parts| > 0 && forall i :: 0 <= i < |parts| ==> sep !in parts[i]
    ensures Split(Join(parts, sep), sep) == parts
  {
    SplitWhole(parts[0], sep);
    if |parts| == 1 {
    } else {
      SplitAppend(parts[0], sep, Join(parts[1..], sep));
      SplitJoin(parts[1..], sep);
      assert parts == [parts[0]] + parts[1..];
    }
  }

  lemma {:induction false} SplitRejoins<T>(s: seq<T>, sep: T)
    ensures Join(Split(s, sep), sep) == s
  {
    if s == [] {
    } else {
      SplitRejoins(s[1..], sep);
      JoinPrepended(s[0], Split(s[1..], sep), sep);
      assert s == [s[0]] + s[1..];
      SplitCons(s[0], s[1..], sep);
    }
  }

  lemma {:induction false} JoinPrepended<T>(x: T, parts: seq<seq<T>>, sep: T)
    requires |parts| > 0
    ensures Join(Prepended(x, parts, sep), sep) == [x] + Join(parts, sep)
  {
    var all := Prepended(x, parts, sep);
    if x == sep {
      assert all[1..] == parts;
    } else if |parts| > 1 {
      assert all[1..] == parts[1..];
      assert [x] + parts[0] + [sep] + Join(parts[1..], sep) == [x] + (parts[0] + [sep] + Join(parts[1..], sep));
    }
  }

  lemma {:induction false} PiecesPlain<T>(s: seq<T>, sep: T)
    ensures forall i :: 0 <= i < |Split(s, sep)| ==> sep !in Split(s, sep)[i]
  {
    if s == [] {
    } else {
      PiecesPlain(s[1..], sep);
    }
  }

  lemma {:induction false} JoinSplit<T>(s: seq<T>, sep: T)
    ensures Join(Split(s, sep), sep) == s
    ensures forall i :: 0 <= i < |Split(s, sep)| ==> sep !in Split(s, sep)[i]
  {
    SplitRejoins(s, sep);
    PiecesPlain(s, sep);
  }

  /** The piece after the last separator. */
  function LastPiece<T(==)>(s: seq<T>, sep: T): seq<T> {
    var parts := Split(s, sep);
    parts[|parts| - 1]
  }

  /** The pieces that a separator ends. */
  function EndedPieces<T(==)>(s: seq<T>, sep: T): seq<seq<T>> {
    var parts := Split(s, sep);
    parts[..|parts| - 1]
  }

  /** Some pieces with the last one continued. */
  function Continued<T>(parts: seq<seq<T>>, b: seq<T>): seq<seq<T>>
    requires |parts| > 0
  {
    parts[..|parts| - 1] + [parts[|parts| - 1] + b]
  }

  lemma {:induction false} PrependedContinued<T>(x: T, parts: seq<seq<T>>, b: seq<T>, sep: T)
    requires |parts| > 0
    ensures Prepended(x, Continued(parts, b), sep) == Continued(Prepended(x, parts, sep), b)
  {
    if x != sep && |parts| == 1 {
      assert [x] + (parts[0] + b) == ([x] + parts[0]) + b;
    }
  }

  lemma {:induction false} SplitContinued<T>(a: seq<T>, sep: T, b: seq<T>)
    requires sep !in b
    ensures Split(a + b, sep) == Continued(Split(a, sep), b)
  {
    if a == [] {
      assert a + b == b && [] + b == b;
      SplitWhole(b, sep);
    } else {
      var rest := a[1..];
      SplitContinued(rest, sep, b);
      assert a == [a[0]] + rest && a + b == [a[0]] + (rest + b);
      SplitCons(a[0], rest + b, sep);
      SplitCons(a[0], rest, sep);
      PrependedContinued(a[0], Split(rest, sep), b, sep);
    }
  }

  /** Text without a separator only extends the last piece. */
  lemma {:induction false} SplitExtend<T>(a: seq<T>, sep: T, b: seq<T>)
    requires sep !in b
    ensures EndedPieces(a + b, sep) == EndedPieces(a, sep) && LastPiece(a + b, sep) == LastPiece(a, sep) + b
  {
    SplitContinued(a, sep, b);
  }

  /** A separator ends the last piece and starts an empty one. */
  lemma {:induction false} SplitEnd<T>(a: seq<T>, sep: T)
    ensures EndedPieces(a + [sep], sep) == EndedPieces(a, sep) + [LastPiece(a, sep)]
    ensures LastPiece(a + [sep], sep) == []
  {
    SplitAppend(a, sep, []);
    assert a + [sep] + [] == a + [sep];
    var parts := Split(a, sep);
    assert (parts + [[]])[..|parts|] == parts[..|parts| - 1] + [parts[|parts| - 1]];
  }
}
