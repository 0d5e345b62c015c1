/**
 Keeping a supplied key out of shown text (crates/pocox-core/src/redact.rs,
 `percent_encoded` and `Redactor`).
 */
module Redactor {
  import opened Text

  /** Longest text shown, in bytes, before the ellipsis. */
  const MAX_TEXT: nat := 600
  /** A fragment at least this long at a line edge withholds the line. */
  const MIN_FRAGMENT: nat := 4
  const WITHHELD_LINE: string := "[line withheld: it held the key]"
  const ELLIPSIS: char := '\U{2026}'

  // ---------- string searches ----------

  predicate At(s: string, t: string, i: nat) { i + |t| <= |s| && s[i..i + |t|] == t }

  predicate Contains(s: string, t: string) { exists i: nat :: i <= |s| && At(s, t, i) }

  predicate EndsWith(s: string, t: string) { |t| <= |s| && s[|s| - |t|..] == t }

  /** `str::lines`: a line ends with a newline or a carriage return and one;
      the unended rest is a line when it is not empty. */
  function TextLines(text: string): seq<string> {
    var last := LastPiece(text, '\n');
    WithoutReturns(EndedPieces(text, '\n')) + if last == "" then [] else [last]
  }

  function WithoutReturns(parts: seq<string>): (lines: seq<string>)
    ensures |lines| == |parts| && forall i :: 0 <= i < |parts| ==> lines[i] == WithoutReturn(parts[i])
  {
    seq(|parts|, i requires 0 <= i < |parts| => WithoutReturn(parts[i]))
  }

  function WithoutReturn(line: string): string {
    if EndsWith(line, "\r") then line[..|line| - 1] else line
  }

  // ---------- the forms of a key ----------

  /** ASCII without control characters: what a stored secret may hold
      (host_profiles_environment.rs); an inner space, a quote and a backslash
      pass in a proxy URL. */
  predicate KeyChar(c: char) { ' ' <= c <= '~' }

  predicate IsKey(key: string) { forall i :: 0 <= i < |key| ==> KeyChar(key[i]) }

  predicate Unreserved(c: char) {
    'a' <= c <= 'z' || 'A' <= c <= 'Z' || '0' <= c <= '9'
    || c == '-' || c == '.' || c == '_' || c == '~'
  }

  function PercentByte(c: char, upper: bool): (s: string)
    requires KeyChar(c)
    ensures s != "" && forall i :: 0 <= i < |s| ==> KeyChar(s[i])
  {
    if Unreserved(c) then [c]
    else ['%', HexDigit(c as int / 16, upper), HexDigit(c as int % 16, upper)]
  }

  function PercentForm(key: string, upper: bool): (s: string)
    requires IsKey(key)
    ensures |s| >= |key| && IsKey(s)
  {
    if key == "" then "" else PercentByte(key[0], upper) + PercentForm(key[1..], upper)
  }

  lemma {:induction false} PercentStep(key: string, i: nat, upper: bool, out: string)
    requires IsKey(key) && i < |key|
    ensures out + PercentForm(key[i..], upper) == out + PercentByte(key[i], upper) + PercentForm(key[i + 1..], upper)
  {
    assert key[i..][1..] == key[i + 1..];
    Regrouped(out, PercentByte(key[i], upper), PercentForm(key[i + 1..], upper));
  }

  lemma {:induction false} Regrouped(a: string, b: string, c: string)
    ensures a + (b + c) == a + b + c
  {
  }

  /** `percent_encoded`. */
  method PercentEncoded(key: string, upper: bool) returns (out: string)
    requires IsKey(key)
    ensures out == PercentForm(key, upper)
  {
    out := "";
    for i := 0 to |key|
      invariant out + PercentForm(key[i..], upper) == PercentForm(key, upper)
    {
      PercentStep(key, i, upper, out);
      if Unreserved(key[i]) {
        out := out + [key[i]];
      } else {
        out := out + ['%', HexDigit(key[i] as int / 16, upper), HexDigit(key[i] as int % 16, upper)];
      }
    }
  }

  /** Percent-decoding, from section 2.1 of RFC 3986. */
  function PercentDecoded(s: string): Option<string> {
    if s == "" then Some("")
    else if s[0] != '%' then
      match PercentDecoded(s[1..])
      case None => None
      case Some(rest) => Some([s[0]] + rest)
    else if |s| < 3 || HexValue(s[1]).None? || HexValue(s[2]).None? then None
    else
      match PercentDecoded(s[3..])
      case None => None
      case Some(rest) => Some([(HexValue(s[1]).value * 16 + HexValue(s[2]).value) as char] + rest)
  }

  lemma {:induction false} PercentByteDecoded(c: char, upper: bool, rest: string)
    requires KeyChar(c) && PercentDecoded(rest).Some?
    ensures PercentDecoded(PercentByte(c, upper) + rest) == Some([c] + PercentDecoded(rest).value)
  {
    var s := PercentByte(c, upper) + rest;
    if Unreserved(c) {
      assert s[0] == c && s[1..] == rest;
    } else {
      var n := c as int;
      assert s[0] == '%' && s[1] == HexDigit(n / 16, upper) && s[2] == HexDigit(n % 16, upper) && s[3..] == rest;
      assert n / 16 * 16 + n % 16 == n;
    }
  }

  /** Both percent-encoded forms decode to the key, so each determines it. */
  lemma {:induction false} PercentRoundTrip(key: string, upper: bool)
    requires IsKey(key)
    ensures PercentDecoded(PercentForm(key, upper)) == Some(key)
  {
    if key == "" {
    } else {
      PercentRoundTrip(key[1..], upper);
      PercentByteDecoded(key[0], upper, PercentForm(key[1..], upper));
      assert key == [key[0]] + key[1..];
    }
  }

  /** The encoding character by character: letters, digits and four marks stay,
      and any other becomes a percent sign and its two hexadecimal digits. */
  lemma {:induction false} PercentIs(a: string, c: char, b: string, upper: bool)
    requires IsKey(a) && KeyChar(c) && IsKey(b)
    ensures PercentForm("", upper) == "" && IsKey(a + [c] + b)
    ensures PercentForm(a + [c] + b, upper) == PercentForm(a, upper) + PercentForm([c], upper) + PercentForm(b, upper)
    ensures var digits := if upper then "0123456789ABCDEF" else "0123456789abcdef";
            PercentForm([c], upper)
            == if 'a' <= c <= 'z' || 'A' <= c <= 'Z' || '0' <= c <= '9' || c in "-._~" then [c]
               else ['%', digits[c as int / 16], digits[c as int % 16]]
  {
    PercentAppend(a + [c], b, upper);
    PercentAppend(a, [c], upper);
    assert [c][1..] == "";
    DigitIs(c as int / 16, upper);
    DigitIs(c as int % 16, upper);
  }

  lemma {:induction false} DigitIs(n: nat, upper: bool)
    requires n < 16
    ensures HexDigit(n, upper) == (if upper then "0123456789ABCDEF" else "0123456789abcdef")[n]
  {
  }

  lemma {:induction false} PercentAppend(a: string, b: string, upper: bool)
    requires IsKey(a) && IsKey(b)
    ensures IsKey(a + b) && PercentForm(a + b, upper) == PercentForm(a, upper) + PercentForm(b, upper)
  {
    if a == "" {
      assert a + b == b;
    } else {
      assert (a + b)[1..] == a[1..] + b;
      PercentAppend(a[1..], b, upper);
    }
  }

  /** The text with a backslash before each special character. */
  function Escaped(s: string, special: set<char>): (e: string)
    ensures |e| >= |s|
    ensures IsKey(s) ==> IsKey(e)
    ensures '\\' in special || e == "" || e[0] !in special
  {
    if s == "" then ""
    else (if s[0] in special then ['\\', s[0]] else [s[0]]) + Escaped(s[1..], special)
  }

  /** Dropping the backslash before each special character. */
  function Unescaped(s: string, special: set<char>): string {
    if s == "" then ""
    else if s[0] == '\\' && |s| > 1 && s[1] in special then [s[1]] + Unescaped(s[2..], special)
    else [s[0]] + Unescaped(s[1..], special)
  }

  /** Escaping loses nothing, whichever characters are special. */
  lemma {:induction false} EscapeRoundTrip(s: string, special: set<char>)
    ensures Unescaped(Escaped(s, special), special) == s
  {
    if s == "" {
    } else {
      EscapeRoundTrip(s[1..], special);
      var e, rest := Escaped(s, special), Escaped(s[1..], special);
      if s[0] in special {
        assert e[2..] == rest && e[0] == '\\' && e[1] == s[0];
      } else {
        assert e[1..] == rest && e[0] == s[0];
      }
      assert s == [s[0]] + s[1..];
    }
  }

  lemma {:induction false} EscapedAppend(a: string, b: string, special: set<char>)
    ensures Escaped(a + b, special) == Escaped(a, special) + Escaped(b, special)
  {
    if a == "" {
      assert a + b == b;
    } else {
      assert (a + b)[1..] == a[1..] + b;
      EscapedAppend(a[1..], b, special);
    }
  }

  /** The key with `/` escaped, as JSON encoders may. */
  function SlashForm(key: string): string { Escaped(key, {'/'}) }

  /** What a search over single lines can withhold: some text without a line
      break or the mark of a cut. */
  predicate Searchable(form: string) { form != "" && '\n' !in form && ELLIPSIS !in form }

  predicate AllSearchable(forms: set<string>) { forall form :: form in forms ==> Searchable(form) }

  function FormsOf(key: string): (forms: set<string>)
    requires IsKey(key)
    ensures AllSearchable(forms)
    ensures forall form :: form in forms ==> |form| >= |key|
    ensures key != "" ==> key in forms
  {
    if key == "" then {}
    else {key, PercentForm(key, true), PercentForm(key, false), SlashForm(key)}
  }

  // ---------- withholding ----------

  predicate ShowsForm(line: string, form: string) {
    var bare := Trim(line);
    || Contains(line, form)
    || (ByteLen(bare) >= MIN_FRAGMENT && Contains(form, bare))
    || exists n :: MIN_FRAGMENT <= n < |form| && EdgeFragment(bare, form, n)
  }

  /** The line ends with the form's first `n` characters or starts with its last. */
  predicate EdgeFragment(bare: string, form: string, n: nat)
    requires n <= |form|
  {
    EndsWith(bare, form[..n]) || form[|form| - n..] <= bare
  }

  /** `Redactor::holds`. */
  predicate Holds(forms: set<string>, line: string) { exists form :: form in forms && ShowsForm(line, form) }

  /** `Redactor::line`. */
  function ShownLine(forms: set<string>, line: string): string {
    if Holds(forms, line) then WITHHELD_LINE else line
  }

  function ShownLines(forms: set<string>, lines: seq<string>): (shown: seq<string>)
    ensures |shown| == |lines|
    ensures forall i :: 0 <= i < |lines| ==> shown[i] == ShownLine(forms, lines[i])
  {
    seq(|lines|, i requires 0 <= i < |lines| => ShownLine(forms, lines[i]))
  }

  /** The text with every key-holding line replaced. */
  function Filtered(forms: set<string>, text: string): string {
    if forms == {} then text else Join(ShownLines(forms, TextLines(text)), '\n')
  }

  /** The longest prefix of at most `n` bytes. */
  function Prefix(s: string, n: nat): (p: string)
    ensures p <= s
  {
    if s == "" || CharBytes(s[0]) > n then "" else [s[0]] + Prefix(s[1..], n - CharBytes(s[0]))
  }

  function Bounded(s: string): string {
    if ByteLen(s) <= MAX_TEXT then s else Prefix(s, MAX_TEXT) + [ELLIPSIS]
  }

  /** No offset after the end of the longest prefix is a boundary in range. */
  lemma {:induction false} PrefixIsLastBoundary(s: string, n: nat)
    requires n < ByteLen(s)
    ensures ByteLen(Prefix(s, n)) <= n
    ensures BoundaryAt(s, ByteLen(Prefix(s, n))) == Some(|Prefix(s, n)|)
    ensures forall m :: ByteLen(Prefix(s, n)) < m <= n ==> BoundaryAt(s, m).None?
  {
    if CharBytes(s[0]) > n {
    } else {
      var rest := n - CharBytes(s[0]);
      PrefixIsLastBoundary(s[1..], rest);
      var p := Prefix(s, n);
      assert p[0] == s[0] && p[1..] == Prefix(s[1..], rest);
      forall m | ByteLen(p) < m <= n ensures BoundaryAt(s, m).None? {
        assert BoundaryAt(s[1..], m - CharBytes(s[0])).None?;
      }
    }
  }

  /** `Redactor::text`: the filtered text, cut at a character boundary. */
  method ShownText(forms: set<string>, text: string) returns (out: string)
    ensures out == Bounded(Filtered(forms, text))
  {
    out := Filtered(forms, text);
    if ByteLen(out) > MAX_TEXT {
      PrefixIsLastBoundary(out, MAX_TEXT);
      var cut := MAX_TEXT;
      var k := BoundaryAt(out, cut);
      while k.None?
        invariant ByteLen(Prefix(out, MAX_TEXT)) <= cut <= MAX_TEXT && k == BoundaryAt(out, cut)
        decreases cut
      {
        cut := cut - 1;
        k := BoundaryAt(out, cut);
      }
      assert out[..k.value] == Prefix(out, MAX_TEXT);
      out := out[..k.value] + [ELLIPSIS];
    }
  }

  lemma {:induction false} BoundedLength(s: string)
    ensures ByteLen(Bounded(s)) <= MAX_TEXT + CharBytes(ELLIPSIS)
  {
    if ByteLen(s) > MAX_TEXT {
      PrefixIsLastBoundary(s, MAX_TEXT);
      ByteLenAppend(Prefix(s, MAX_TEXT), [ELLIPSIS]);
      assert [ELLIPSIS][1..] == "";
      assert ByteLen([ELLIPSIS]) == CharBytes(ELLIPSIS) + ByteLen([ELLIPSIS][1..]);
    }
  }

  // ---------- no form of the key is shown ----------

  predicate Free(forms: set<string>, s: string) { forall form :: form in forms ==> !Contains(s, form) }

  /** A form without the separator lies inside one side of it. */
  lemma {:induction false} ContainsAcross(a: string, sep: char, b: string, form: string)
    requires sep !in form && form != "" && Contains(a + [sep] + b, form)
    ensures Contains(a, form) || Contains(b, form)
  {
    var s := a + [sep] + b;
    var i: nat :| i <= |s| && At(s, form, i);
    forall m | i <= m < i + |form| ensures s[m] != sep {
      assert s[m] == form[m - i];
    }
    assert s[|a|] == sep;
    if i + |form| <= |a| {
      assert At(a, form, i) by { assert s[i..i + |form|] == a[i..i + |form|]; }
    } else {
      var j := i - |a| - 1;
      assert At(b, form, j) by { assert s[i..i + |form|] == b[j..j + |form|]; }
    }
  }

  lemma {:induction false} JoinFree(parts: seq<string>, sep: char, form: string)
    requires sep !in form && form != ""
    requires forall i :: 0 <= i < |parts| ==> !Contains(parts[i], form)
    ensures !Contains(Join(parts, sep), form)
  {
    if |parts| <= 1 {
    } else {
      JoinFree(parts[1..], sep, form);
      if Contains(Join(parts, sep), form) {
        ContainsAcross(parts[0], sep, Join(parts[1..], sep), form);
      }
    }
  }

  lemma {:induction false} BoundedFree(s: string, form: string)
    requires Searchable(form) && !Contains(s, form)
    ensures !Contains(Bounded(s), form)
  {
    if ByteLen(s) > MAX_TEXT && Contains(Bounded(s), form) {
      var p := Prefix(s, MAX_TEXT);
      assert Bounded(s) == p + [ELLIPSIS] + "";
      ContainsAcross(p, ELLIPSIS, "", form);
      var whole := if Contains(p, form) then p else "";
      var i: nat :| i <= |whole| && At(whole, form, i);
      assert At(s, form, i) by { assert s[i..i + |form|] == p[i..i + |form|]; }
    }
  }

  /** No form survives, even after truncation, when none is in the notice. */
  lemma {:induction false} TextHidesForms(forms: set<string>, text: string)
    requires AllSearchable(forms) && Free(forms, WITHHELD_LINE)
    ensures Free(forms, Bounded(Filtered(forms, text)))
  {
    forall form | form in forms ensures !Contains(Bounded(Filtered(forms, text)), form) {
      var shown := ShownLines(forms, TextLines(text));
      forall i | 0 <= i < |shown| ensures !Contains(shown[i], form) {
        assert shown[i] == ShownLine(forms, TextLines(text)[i]);
        if Contains(TextLines(text)[i], form) {
          assert ShowsForm(TextLines(text)[i], form);
        }
      }
      JoinFree(shown, '\n', form);
      BoundedFree(Filtered(forms, text), form);
    }
  }

  /** That condition is exact: a form that is in the notice is shown. */
  lemma {:induction false} TextHidesFormsIff(forms: set<string>)
    requires AllSearchable(forms)
    ensures (forall text :: Free(forms, Bounded(Filtered(forms, text)))) <==> Free(forms, WITHHELD_LINE)
  {
    if Free(forms, WITHHELD_LINE) {
      forall text ensures Free(forms, Bounded(Filtered(forms, text))) {
        TextHidesForms(forms, text);
      }
    } else {
      var form :| form in forms && Contains(WITHHELD_LINE, form);
      FormAloneWithheld(forms, form);
      ShortUnbounded(WITHHELD_LINE);
      assert !Free(forms, Bounded(Filtered(forms, form)));
    }
  }

  /** Such a key exists: the notice holds the word it withholds. */
  lemma {:induction false} NoticeShowsKey()
    ensures IsKey("key") && "key" in FormsOf("key")
    ensures Contains(WITHHELD_LINE, "key") && !Free(FormsOf("key"), WITHHELD_LINE)
    ensures Contains(Bounded(Filtered(FormsOf("key"), "key")), "key")
  {
    assert WITHHELD_LINE[28..31] == "key";
    assert At(WITHHELD_LINE, "key", 28);
    FormAloneWithheld(FormsOf("key"), "key");
    ShortUnbounded(WITHHELD_LINE);
  }

  lemma {:induction false} FormAloneWithheld(forms: set<string>, form: string)
    requires form in forms && Searchable(form)
    ensures Filtered(forms, form) == WITHHELD_LINE
  {
    SplitWhole(form, '\n');
    assert TextLines(form) == [form];
    assert At(form, form, 0) && Contains(form, form) && ShowsForm(form, form);
    assert ShownLines(forms, [form]) == [WITHHELD_LINE];
  }

  lemma {:induction false} ShortUnbounded(s: string)
    requires 4 * |s| <= MAX_TEXT
    ensures Bounded(s) == s
  {
    LengthBound(s);
  }

  lemma {:induction false} LengthAtLeast(s: string)
    ensures ByteLen(s) >= |s|
  {
    if s == "" {
    } else {
      LengthAtLeast(s[1..]);
    }
  }

  lemma {:induction false} LengthBound(s: string)
    ensures ByteLen(s) <= 4 * |s|
  {
    if s == "" {
    } else {
      LengthBound(s[1..]);
    }
  }

  /** A whole copy of the key anywhere in a line withholds it: verbatim,
      percent-encoded in either case, or with slashes escaped. */
  lemma {:induction false} CopiesHeld(key: string, copy: string, a: string, b: string)
    requires IsKey(key) && key != ""
    requires copy == key || copy == SlashForm(key) || exists upper :: copy == PercentForm(key, upper)
    ensures Holds(FormsOf(key), a + copy + b)
  {
    var line := a + copy + b;
    assert At(line, copy, |a|);
    assert copy in FormsOf(key) && ShowsForm(line, copy);
  }

  // ---------- wrapped keys ----------

  lemma {:induction false} TrimStartBlank(w: string, s: string)
    requires Blank(w)
    ensures TrimStart(w + s) == TrimStart(s)
  {
    if w == "" {
      assert w + s == s;
    } else {
      assert (w + s)[1..] == w[1..] + s;
      TrimStartBlank(w[1..], s);
    }
  }

  lemma {:induction false} TrimEndBlank(s: string, w: string)
    requires Blank(w)
    ensures TrimEnd(s + w) == TrimEnd(s)
  {
    if w == "" {
      assert s + w == s;
    } else {
      assert (s + w)[..|s + w| - 1] == s + w[..|w| - 1];
      TrimEndBlank(s, w[..|w| - 1]);
    }
  }

  lemma {:induction false} TrimStartTail(s: string)
    ensures var t := TrimStart(s); |t| <= |s| && s[|s| - |t|..] == t && Blank(s[..|s| - |t|])
    ensures TrimStart(s) == "" || !IsWhitespace(TrimStart(s)[0])
  {
    if s != "" && IsWhitespace(s[0]) {
      TrimStartTail(s[1..]);
      var n := |s| - |TrimStart(s)|;
      forall i | 0 <= i < n ensures IsWhitespace(s[..n][i]) {
        assert s[..n][i] == s[i];
        if i > 0 {
          assert s[i] == s[1..][..n - 1][i - 1];
        }
      }
    }
  }

  lemma {:induction false} TrimEndHead(s: string)
    ensures TrimEnd(s) <= s && Blank(s[|TrimEnd(s)|..])
    ensures TrimEnd(s) == "" || !IsWhitespace(TrimEnd(s)[|TrimEnd(s)| - 1])
  {
    if s != "" && IsWhitespace(s[|s| - 1]) {
      TrimEndHead(s[..|s| - 1]);
      var n := |TrimEnd(s)|;
      forall i | n <= i < |s| ensures IsWhitespace(s[i]) {
        if i < |s| - 1 {
          assert s[i] == s[..|s| - 1][n..][i - n];
        }
      }
    }
  }

  /** Trimming one end stops at the first character that is not whitespace. */
  lemma {:induction false} TrimStartKeepsEnd(a: string, h: string)
    requires !Blank(a)
    ensures EndsWith(TrimStart(a + h), h)
  {
    if IsWhitespace(a[0]) {
      assert (a + h)[1..] == a[1..] + h;
      TrimStartKeepsEnd(a[1..], h);
    }
  }

  lemma {:induction false} TrimEndKeepsStart(h: string, b: string)
    requires !Blank(b)
    ensures h <= TrimEnd(h + b)
  {
    if IsWhitespace(b[|b| - 1]) {
      assert (h + b)[..|h + b| - 1] == h + b[..|b| - 1];
      TrimEndKeepsStart(h, b[..|b| - 1]);
    } else {
      assert (h + b)[|h + b| - 1] == b[|b| - 1];
    }
  }

  /** A line that is nothing but whitespace around at least four characters of
      a form is withheld: with the two lemmas after, so is every line of a form
      wrapped in such pieces. */
  lemma {:induction false} MiddleFragmentHeld(forms: set<string>, form: string, i: nat, j: nat, w: string,
                                              v: string)
    requires form in forms && i <= j <= |form| && |Trim(form[i..j])| >= MIN_FRAGMENT && Blank(w) && Blank(v)
    ensures Holds(forms, w + form[i..j] + v)
  {
    var f := form[i..j];
    TrimBlanks(w, f, v);
    BareFragmentHeld(forms, form, i, j, w + f + v);
  }

  lemma {:induction false} TrimBlanks(w: string, f: string, v: string)
    requires Blank(w) && Blank(v) && Trim(f) != ""
    ensures Trim(w + f + v) == Trim(f)
  {
    var t := TrimStart(f);
    TrimStartTail(f);
    assert w + f + v == w + (f + v) && f + v == f[..|f| - |t|] + (t + v);
    TrimStartBlank(w, f + v);
    TrimStartBlank(f[..|f| - |t|], t + v);
    assert TrimStart(t + v) == t + v by { assert t != ""; }
    TrimEndBlank(t, v);
  }

  /** The trimmed text stands somewhere in the text. */
  lemma {:induction false} TrimSlice(s: string) returns (k: nat)
    ensures k + |Trim(s)| <= |s| && s[k..k + |Trim(s)|] == Trim(s)
  {
    var t := TrimStart(s);
    TrimStartTail(s);
    TrimEndHead(t);
    k := |s| - |t|;
    Sliced(s, 0, |s|, k, |Trim(s)|);
    assert s[0..|s|] == s;
  }

  lemma {:induction false} Sliced(s: string, i: nat, j: nat, k: nat, n: nat)
    requires i + k + n <= j <= |s|
    ensures s[i..j][k..][..n] == s[i..j][k..k + n] == s[i + k..i + k + n]
  {
  }

  lemma {:induction false} BareFragmentHeld(forms: set<string>, form: string, i: nat, j: nat, line: string)
    requires form in forms && i <= j <= |form| && Trim(line) == Trim(form[i..j])
    requires |Trim(form[i..j])| >= MIN_FRAGMENT
    ensures Holds(forms, line)
  {
    var bare := Trim(form[i..j]);
    LengthAtLeast(bare);
    var k := TrimSlice(form[i..j]);
    Sliced(form, i, j, k, |bare|);
    assert At(form, bare, i + k);
    assert ShowsForm(line, form);
  }

  /** A line that ends in the first characters of a form and whitespace is
      withheld when at least four are left of them once trimmed. */
  lemma {:induction false} HeadFragmentHeld(forms: set<string>, form: string, k: nat, a: string, w: string)
    requires form in forms && k < |form| && |Trim(form[..k])| >= MIN_FRAGMENT && Blank(w)
    ensures Holds(forms, a + form[..k] + w)
  {
    var f, line := form[..k], a + form[..k] + w;
    if Blank(a) {
      assert form[0..k] == f;
      MiddleFragmentHeld(forms, form, 0, k, a, w);
    } else {
      var h := TrimEnd(f);
      TrimEndHead(f);
      TrimShrinks(f);
      TrimEndsWith(a, h, f[|h|..] + w);
      assert line == a + h + (f[|h|..] + w);
      assert h == form[..|h|];
      assert EdgeFragment(Trim(line), form, |h|);
      assert ShowsForm(line, form);
    }
  }

  lemma {:induction false} TrimShrinks(f: string)
    ensures |Trim(f)| <= |TrimEnd(f)| && |Trim(f)| <= |TrimStart(f)|
  {
    var e, t := TrimEnd(f), TrimStart(f);
    TrimStartTail(f);
    TrimEndHead(t);
    TrimEndHead(f);
    if Trim(f) != "" {
      var last := |f| - |t| + |Trim(f)| - 1;
      assert f[last] == t[|Trim(f)| - 1] == Trim(f)[|Trim(f)| - 1];
      forall i | |e| <= i < |f| ensures IsWhitespace(f[i]) {
        assert f[|e|..][i - |e|] == f[i];
      }
      assert last < |e|;
    }
  }

  /** A line keeps the text it ends with, whitespace after it or not. */
  lemma {:induction false} TrimEndsWith(a: string, h: string, w: string)
    requires h != "" && !IsWhitespace(h[|h| - 1]) && !Blank(a) && Blank(w)
    ensures EndsWith(Trim(a + h + w), h)
  {
    TrimStartKeepsEnd(a, h);
    TrimStartSplit(a + h, w);
    var t := TrimStart(a + h);
    TrimEndBlank(t, w);
  }

  lemma {:induction false} TrimStartSplit(s: string, w: string)
    requires s != "" && !IsWhitespace(s[|s| - 1])
    ensures TrimStart(s + w) == TrimStart(s) + w
  {
    if !IsWhitespace(s[0]) {
    } else {
      assert (s + w)[1..] == s[1..] + w;
      TrimStartSplit(s[1..], w);
    }
  }

  /** The same for a line that starts with whitespace and a form's last characters. */
  lemma {:induction false} TailFragmentHeld(forms: set<string>, form: string, k: nat, w: string, b: string)
    requires form in forms && 0 < k <= |form| && |Trim(form[k..])| >= MIN_FRAGMENT && Blank(w)
    ensures Holds(forms, w + form[k..] + b)
  {
    var f, line := form[k..], w + form[k..] + b;
    if Blank(b) {
      assert form[k..|form|] == f;
      MiddleFragmentHeld(forms, form, k, |form|, w, b);
    } else {
      var t := TrimStart(f);
      TrimStartTail(f);
      TrimShrinks(f);
      TrimStartsWith(w, f, b);
      assert t == form[|form| - |t|..];
      assert EdgeFragment(Trim(line), form, |t|);
      assert ShowsForm(line, form);
    }
  }

  /** A line keeps the text it starts with, whitespace before it or not. */
  lemma {:induction false} TrimStartsWith(w: string, f: string, b: string)
    requires Blank(w) && !Blank(b) && TrimStart(f) != ""
    ensures TrimStart(f) <= Trim(w + f + b)
  {
    var t := TrimStart(f);
    TrimStartTail(f);
    var lead := f[..|f| - |t|];
    assert w + f + b == w + (lead + (t + b));
    TrimStartBlank(w, lead + (t + b));
    TrimStartBlank(lead, t + b);
    TrimEndKeepsStart(t, b);
  }

  /** A form wrapped over two line edges: `a` before it, `b` after it, and
      whitespace at the break. */
  ghost predicate WrapHeld(forms: set<string>, form: string) {
    forall k, a, w, v, b :: 0 < k < |form| && Blank(w) && Blank(v) ==> OneHeld(forms, form, k, a, w, v, b)
  }

  ghost predicate OneHeld(forms: set<string>, form: string, k: nat, a: string, w: string, v: string, b: string)
    requires k <= |form|
  {
    Holds(forms, a + form[..k] + w) || Holds(forms, v + form[k..] + b)
  }

  /** A break leaves at least four characters of the form, trimmed, on a side. */
  predicate WideCut(form: string, k: nat)
    requires k <= |form|
  {
    |Trim(form[..k])| >= MIN_FRAGMENT || |Trim(form[k..])| >= MIN_FRAGMENT
  }

  lemma {:induction false} WideCutsHeld(forms: set<string>, form: string)
    requires form in forms && forall k :: 0 < k < |form| ==> WideCut(form, k)
    ensures WrapHeld(forms, form)
  {
    forall k, a, w, v, b | 0 < k < |form| && Blank(w) && Blank(v) ensures OneHeld(forms, form, k, a, w, v, b) {
      assert WideCut(form, k);
      if |Trim(form[..k])| >= MIN_FRAGMENT {
        HeadFragmentHeld(forms, form, k, a, w);
      } else {
        TailFragmentHeld(forms, form, k, v, b);
      }
    }
  }

  /** A line with fewer than four characters once trimmed, and shorter than
      every form, is shown. */
  lemma {:induction false} ShortLineShown(forms: set<string>, line: string)
    requires |Trim(line)| < MIN_FRAGMENT && forall i :: 0 <= i < |line| ==> line[i] as int < 0x80
    requires forall form :: form in forms ==> |line| < |form|
    ensures !Holds(forms, line)
  {
    var bare := Trim(line);
    TrimStartTail(line);
    TrimEndHead(TrimStart(line));
    AsciiLength(bare);
    forall form | form in forms ensures !ShowsForm(line, form) {
      assert !Contains(line, form);
    }
  }

  lemma {:induction false} AsciiLength(s: string)
    requires forall i :: 0 <= i < |s| ==> s[i] as int < 0x80
    ensures ByteLen(s) == |s|
  {
    if s == "" {
    } else {
      AsciiLength(s[1..]);
    }
  }

  /** Wherever the key is wrapped, one of the two lines is withheld: exactly
      when every break is wide. */
  lemma {:induction false} KeyWrapHeldIff(key: string)
    requires IsKey(key)
    ensures WrapHeld(FormsOf(key), key) <==> forall k :: 0 < k < |key| ==> WideCut(key, k)
  {
    if forall k :: 0 < k < |key| ==> WideCut(key, k) {
      if key != "" {
        WideCutsHeld(FormsOf(key), key);
      }
    } else {
      var k: nat :| 0 < k < |key| && !WideCut(key, k);
      HalvesShown(key, FormsOf(key), k);
      assert !OneHeld(FormsOf(key), key, k, "", "", "", "");
    }
  }

  lemma {:induction false} HalvesShown(key: string, forms: set<string>, k: nat)
    requires IsKey(key) && 0 < k < |key| && !WideCut(key, k)
    requires forall form :: form in forms ==> |form| >= |key|
    ensures !OneHeld(forms, key, k, "", "", "", "")
  {
    ShortLineShown(forms, key[..k]);
    ShortLineShown(forms, key[k..]);
    assert "" + key[..k] + "" == key[..k] && "" + key[k..] + "" == key[k..];
  }

  /** Without inner spaces, as in an API key and every percent-encoded form,
      every break is wide from seven characters on and from no fewer. */
  lemma {:induction false} UnspacedCutsIff(form: string)
    requires forall i :: 0 <= i < |form| ==> !IsWhitespace(form[i])
    ensures (forall k :: 0 < k < |form| ==> WideCut(form, k)) <==> |form| <= 1 || |form| >= 2 * MIN_FRAGMENT - 1
  {
    forall k | 0 <= k <= |form| ensures Trim(form[..k]) == form[..k] && Trim(form[k..]) == form[k..] {
      Untrimmed(form[..k]);
      Untrimmed(form[k..]);
    }
    if 1 < |form| < 2 * MIN_FRAGMENT - 1 {
      assert !WideCut(form, |form| / 2);
    }
  }

  lemma {:induction false} Untrimmed(s: string)
    requires forall i :: 0 <= i < |s| ==> !IsWhitespace(s[i])
    ensures Trim(s) == s
  {
  }

  /** With a space inside, seven characters do not suffice: this secret broken
      after its first space is shown on both lines. */
  lemma {:induction false} SpacedKeyWrapShown(key: string)
    requires key == "abc  def"
    ensures IsKey(key) && |key| >= 2 * MIN_FRAGMENT - 1 && !WideCut(key, 4)
    ensures !OneHeld(FormsOf(key), key, 4, "", "", "", "")
  {
    assert key[..4] == "" + "abc" + " " && key[4..] == " " + "def" + "";
    Untrimmed("abc");
    Untrimmed("def");
    TrimBlanks("", "abc", " ");
    TrimBlanks(" ", "def", "");
    HalvesShown(key, FormsOf(key), 4);
  }

  // ---------- the redactor ----------

  class Redactor {
    /** Every form of every key included; the source keeps them sorted. */
    var forms: set<string>

    constructor (key: Option<string>)
      requires key.Some? ==> IsKey(key.value)
      ensures forms == (if key.None? then {} else FormsOf(key.value))
    {
      forms := {};
      new;
      if key.Some? && key.value != "" {
        var upper := PercentEncoded(key.value, true);
        var lower := PercentEncoded(key.value, false);
        forms := {key.value, upper, lower, SlashForm(key.value)};
      }
    }

    /** Include another credential: nothing withheld before is shown after. */
    method Include(key: string)
      requires IsKey(key)
      modifies this
      ensures forms == old(forms) + FormsOf(key)
      ensures forall line :: old(Holds(forms, line)) || Holds(FormsOf(key), line) <==> Holds(forms, line)
    {
      var more := new Redactor(Some(key));
      forms := forms + more.forms;
    }
  }
}
