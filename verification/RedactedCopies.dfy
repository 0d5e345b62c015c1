/**
 Which JSON-escaped copies of a secret the redactor withholds
 (crates/pocox-core/src/redact.rs): its forms escape `/` alone, while an
 encoder escapes quotes and backslashes as well.
 */
module RedactedCopies {
  import opened Text
  import opened Redactor

  /** What a JSON encoder puts a backslash before in text without control
      characters (section 7 of RFC 8259); `/` is the encoder's choice. */
  function JsonEscapes(slashes: bool): set<char> { if slashes then {'"', '\\', '/'} else {'"', '\\'} }

  function JsonForm(key: string, slashes: bool): string { Escaped(key, JsonEscapes(slashes)) }

  // ---------- the text between the outer backslashes ----------

  predicate AllBackslash(s: string) { forall i :: 0 <= i < |s| ==> s[i] == '\\' }

  function StripStart(s: string): string {
    if s != "" && s[0] == '\\' then StripStart(s[1..]) else s
  }

  function StripEnd(s: string): string {
    if s != "" && s[|s| - 1] == '\\' then StripEnd(s[..|s| - 1]) else s
  }

  function Core(s: string): string { StripEnd(StripStart(s)) }

  predicate IsCore(c: string) { c != "" && c[0] != '\\' && c[|c| - 1] != '\\' }

  /** Between its outer backslashes the key holds no quote or backslash but a
      quote in front. */
  predicate PlainTail(key: string) {
    forall i :: 1 <= i < |Core(key)| ==> Core(key)[i] != '"' && Core(key)[i] != '\\'
  }

  lemma {:induction false} StripStartSplit(s: string) returns (x: string)
    ensures s == x + StripStart(s) && AllBackslash(x)
    ensures StripStart(s) == "" || StripStart(s)[0] != '\\'
  {
    if s != "" && s[0] == '\\' {
      var rest := StripStartSplit(s[1..]);
      x := ['\\'] + rest;
      Regrouped(['\\'], rest, StripStart(s[1..]));
      assert s == [s[0]] + s[1..];
    } else {
      x := "";
    }
  }

  lemma {:induction false} StripEndSplit(s: string) returns (y: string)
    ensures s == StripEnd(s) + y && AllBackslash(y)
    ensures StripEnd(s) == "" || StripEnd(s)[|StripEnd(s)| - 1] != '\\'
  {
    if s != "" && s[|s| - 1] == '\\' {
      var rest := StripEndSplit(s[..|s| - 1]);
      y := rest + ['\\'];
      Regrouped(StripEnd(s[..|s| - 1]), rest, ['\\']);
      assert s == s[..|s| - 1] + [s[|s| - 1]];
    } else {
      y := "";
    }
  }

  lemma {:induction false} CoreSplit(s: string) returns (x: string, y: string)
    ensures s == x + Core(s) + y && AllBackslash(x) && AllBackslash(y)
    ensures Core(s) == "" || IsCore(Core(s))
  {
    x := StripStartSplit(s);
    y := StripEndSplit(StripStart(s));
  }

  lemma {:induction false} StripStartOf(x: string, s: string)
    requires AllBackslash(x) && s != "" && s[0] != '\\'
    ensures StripStart(x + s) == s
  {
    if x == "" {
      assert x + s == s;
    } else {
      assert (x + s)[1..] == x[1..] + s;
      StripStartOf(x[1..], s);
    }
  }

  lemma {:induction false} StripEndOf(s: string, y: string)
    requires AllBackslash(y) && s != "" && s[|s| - 1] != '\\'
    ensures StripEnd(s + y) == s
  {
    if y == "" {
      assert s + y == s;
    } else {
      assert (s + y)[..|s + y| - 1] == s + y[..|y| - 1];
      StripEndOf(s, y[..|y| - 1]);
    }
  }

  lemma {:induction false} CoreOf(x: string, c: string, y: string)
    requires AllBackslash(x) && IsCore(c) && AllBackslash(y)
    ensures Core(x + c + y) == c
  {
    assert x + c + y == x + (c + y);
    StripStartOf(x, c + y);
    StripEndOf(c, y);
  }

  // ---------- escaping piece by piece ----------

  lemma {:induction false} EscapedBackslashes(s: string, special: set<char>)
    requires AllBackslash(s)
    ensures AllBackslash(Escaped(s, special))
    ensures '\\' !in special ==> Escaped(s, special) == s
  {
    if s == "" {
    } else {
      EscapedBackslashes(s[1..], special);
    }
  }

  lemma {:induction false} EscapedAlike(s: string, few: set<char>, more: set<char>)
    requires forall i :: 0 <= i < |s| ==> (s[i] in few <==> s[i] in more)
    ensures Escaped(s, few) == Escaped(s, more)
  {
    if s == "" {
    } else {
      EscapedAlike(s[1..], few, more);
    }
  }

  /** Escaping more characters adds as many backslashes as it meets of them. */
  lemma {:induction false} EscapedLonger(s: string, few: set<char>, more: set<char>)
    requires few <= more
    ensures |Escaped(s, few)| <= |Escaped(s, more)|
    ensures |Escaped(s, few)| == |Escaped(s, more)| ==> forall i :: 0 <= i < |s| && s[i] in more ==> s[i] in few
  {
    if s == "" {
    } else {
      EscapedLonger(s[1..], few, more);
      if |Escaped(s, few)| == |Escaped(s, more)| {
        forall i | 0 <= i < |s| && s[i] in more ensures s[i] in few {
          if i > 0 {
            assert s[i] == s[1..][i - 1];
          }
        }
      }
    }
  }

  lemma {:induction false} EscapedLast(s: string, special: set<char>)
    requires s != ""
    ensures var e := Escaped(s, special); e != "" && e[|e| - 1] == s[|s| - 1]
  {
    if |s| > 1 {
      EscapedLast(s[1..], special);
    } else {
      assert s[1..] == "";
    }
  }

  lemma {:induction false} EscapedAround(x: string, c: string, y: string, special: set<char>)
    requires AllBackslash(x) && AllBackslash(y)
    ensures Escaped(x + c + y, special) == Escaped(x, special) + Escaped(c, special) + Escaped(y, special)
    ensures AllBackslash(Escaped(x, special)) && AllBackslash(Escaped(y, special))
    ensures '\\' !in special ==> Escaped(x, special) == x && Escaped(y, special) == y
  {
    EscapedAppend(x + c, y, special);
    EscapedAppend(x, c, special);
    EscapedBackslashes(x, special);
    EscapedBackslashes(y, special);
  }

  /** What escaping puts before a first character. */
  function Lead(c: char, special: set<char>): (lead: string)
    ensures AllBackslash(lead)
  {
    if c in special then ['\\'] else ""
  }

  lemma {:induction false} HeadEscaped(s: string, special: set<char>)
    requires s != ""
    ensures Escaped(s, special) == Lead(s[0], special) + ([s[0]] + Escaped(s[1..], special))
  {
    var rest := Escaped(s[1..], special);
    assert ['\\', s[0]] + rest == ['\\'] + ([s[0]] + rest);
  }

  lemma {:induction false} CharEscaped(c: char, special: set<char>)
    ensures Escaped([c], special) == Lead(c, special) + [c]
  {
    assert [c][1..] == "";
  }

  lemma {:induction false} Grouped(x: string, lead: string, mid: string, y: string)
    ensures x + (lead + mid) + y == (x + lead) + mid + y
  {
    Regrouped(x, lead, mid);
  }

  /** The key's core escaped, its first character aside. */
  lemma {:induction false} CoreEscaped(key: string, special: set<char>)
    requires Core(key) != ""
    ensures Core(Escaped(key, special)) == [Core(key)[0]] + Escaped(Core(key)[1..], special)
  {
    var x, y := CoreSplit(key);
    var c := Core(key);
    EscapedAround(x, c, y, special);
    HeadEscaped(c, special);
    TailEscaped(c, special);
    var ex, lead, mid, ey := Escaped(x, special), Lead(c[0], special), [c[0]] + Escaped(c[1..], special),
                             Escaped(y, special);
    Grouped(ex, lead, mid, ey);
    CoreOf(ex + lead, mid, ey);
  }

  lemma {:induction false} TailEscaped(c: string, special: set<char>)
    requires IsCore(c)
    ensures IsCore([c[0]] + Escaped(c[1..], special))
  {
    var t := c[1..];
    if t != "" {
      EscapedLast(t, special);
      assert t[|t| - 1] == c[|c| - 1];
    }
  }

  predicate Plain(s: string, special: set<char>) { forall i :: 0 <= i < |s| ==> s[i] !in special }

  lemma {:induction false} EscapedMiddle(p: string, mid: string, q: string, special: set<char>)
    requires Plain(p, special) && Plain(q, special)
    ensures Escaped(p + mid + q, special) == p + Escaped(mid, special) + q
  {
    EscapedAppend(p + mid, q, special);
    EscapedAppend(p, mid, special);
    EscapedAlike(p, {}, special);
    EscapedAlike(q, {}, special);
    NothingEscaped(p);
    NothingEscaped(q);
  }

  // ---------- counting characters ----------

  function Count(s: string, p: char -> bool): nat {
    if s == "" then 0 else (if p(s[0]) then 1 else 0) + Count(s[1..], p)
  }

  lemma {:induction false} CountAppend(a: string, b: string, p: char -> bool)
    ensures Count(a + b, p) == Count(a, p) + Count(b, p)
  {
    if a == "" {
      assert a + b == b;
    } else {
      assert (a + b)[1..] == a[1..] + b;
      CountAppend(a[1..], b, p);
    }
  }

  lemma {:induction false} CountNone(s: string, p: char -> bool)
    requires Count(s, p) == 0
    ensures forall i :: 0 <= i < |s| ==> !p(s[i])
  {
    if s == "" {
    } else {
      CountNone(s[1..], p);
      forall i | 0 <= i < |s| ensures !p(s[i]) {
        if i > 0 {
          assert s[i] == s[1..][i - 1];
        }
      }
    }
  }

  /** Escaping adds backslashes and nothing else. */
  lemma {:induction false} EscapedCount(s: string, special: set<char>, p: char -> bool)
    requires !p('\\')
    ensures Count(Escaped(s, special), p) == Count(s, p)
  {
    if s == "" {
    } else {
      EscapedCount(s[1..], special, p);
      var e := if s[0] in special then ['\\', s[0]] else [s[0]];
      CountAppend(e, Escaped(s[1..], special), p);
      assert e[1..] == if s[0] in special then [s[0]] else "";
      assert [s[0]][1..] == "";
    }
  }

  lemma {:induction false} ContainedCount(s: string, t: string, p: char -> bool)
    requires Contains(s, t)
    ensures Count(t, p) <= Count(s, p)
  {
    var i: nat :| i <= |s| && At(s, t, i);
    assert s == s[..i] + t + s[i + |t|..];
    CountAppend(s[..i] + t, s[i + |t|..], p);
    CountAppend(s[..i], t, p);
  }

  predicate IsPercent(c: char) { c == '%' }

  predicate IsReserved(c: char) { !Unreserved(c) }

  predicate IsOther(c: char) { c != '\\' }

  lemma {:induction false} PercentCount(key: string, upper: bool)
    requires IsKey(key)
    ensures Count(PercentForm(key, upper), IsPercent) == Count(key, IsReserved)
  {
    if key == "" {
    } else {
      PercentCount(key[1..], upper);
      var e := PercentByte(key[0], upper);
      CountAppend(e, PercentForm(key[1..], upper), IsPercent);
      ByteCount(key[0], upper);
    }
  }

  lemma {:induction false} ByteCount(c: char, upper: bool)
    requires KeyChar(c)
    ensures Count(PercentByte(c, upper), IsPercent) == if IsReserved(c) then 1 else 0
  {
    var e := PercentByte(c, upper);
    if Unreserved(c) {
      assert e[1..] == "";
    } else {
      CountThree('%', e[1], e[2], IsPercent);
    }
  }

  lemma {:induction false} CountThree(a: char, b: char, c: char, p: char -> bool)
    ensures Count([a, b, c], p) == (if p(a) then 1 else 0) + (if p(b) then 1 else 0) + (if p(c) then 1 else 0)
  {
    CountAppend([a], [b, c], p);
    CountAppend([b], [c], p);
    assert [a, b, c] == [a] + [b, c] && [b, c] == [b] + [c];
    assert [a][1..] == "" && [b][1..] == "" && [c][1..] == "";
  }

  lemma {:induction false} MoreReserved(key: string)
    ensures Count(key, IsPercent) <= Count(key, IsReserved)
    ensures (exists i :: 0 <= i < |key| && (key[i] == '"' || key[i] == '\\')) ==>
              Count(key, IsPercent) < Count(key, IsReserved)
  {
    if key == "" {
    } else {
      MoreReserved(key[1..]);
      if i :| 0 <= i < |key| && (key[i] == '"' || key[i] == '\\') {
        if i > 0 {
          assert key[1..][i - 1] == key[i];
        }
      }
    }
  }

  /** A percent-encoded form is in no JSON-escaped copy of a key that needs one. */
  lemma {:induction false} PercentNotInCopy(key: string, upper: bool, special: set<char>)
    requires IsKey(key) && exists i :: 0 <= i < |key| && (key[i] == '"' || key[i] == '\\')
    ensures !Contains(Escaped(key, special), PercentForm(key, upper))
  {
    PercentCount(key, upper);
    MoreReserved(key);
    EscapedCount(key, special, IsPercent);
    if Contains(Escaped(key, special), PercentForm(key, upper)) {
      ContainedCount(Escaped(key, special), PercentForm(key, upper), IsPercent);
    }
  }

  // ---------- one escaped copy inside another ----------

  /** If the key escaped one way occurs in the key escaped another way, only
      backslashes are left around it ... */
  lemma {:induction false} OnlyBackslashesAround(key: string, special: set<char>, within: set<char>)
    returns (before: string, after: string)
    requires Contains(Escaped(key, within), Escaped(key, special))
    ensures Escaped(key, within) == before + Escaped(key, special) + after
    ensures AllBackslash(before) && AllBackslash(after)
  {
    var s, t := Escaped(key, within), Escaped(key, special);
    var i: nat :| i <= |s| && At(s, t, i);
    before, after := s[..i], s[i + |t|..];
    assert s == before + t + after;
    EscapedCount(key, within, IsOther);
    EscapedCount(key, special, IsOther);
    CountAppend(before + t, after, IsOther);
    CountAppend(before, t, IsOther);
    CountNone(before, IsOther);
    CountNone(after, IsOther);
  }

  lemma {:induction false} CoreAround(before: string, t: string, after: string)
    requires AllBackslash(before) && AllBackslash(after) && Core(t) != ""
    ensures Core(before + t + after) == Core(t)
  {
    var x, y := CoreSplit(t);
    assert before + t + after == (before + x) + Core(t) + (y + after);
    CoreOf(before + x, Core(t), y + after);
  }

  /** ... so the tails agree. */
  lemma {:induction false} CopyInCopy(key: string, special: set<char>, within: set<char>)
    requires Contains(Escaped(key, within), Escaped(key, special)) && Core(key) != ""
    ensures Escaped(Core(key)[1..], within) == Escaped(Core(key)[1..], special)
  {
    var before, after := OnlyBackslashesAround(key, special, within);
    CoreEscaped(key, special);
    CoreEscaped(key, within);
    CoreAround(before, Escaped(key, special), after);
    assert Core(Escaped(key, within))[1..] == Escaped(Core(key)[1..], within);
    assert Core(Escaped(key, special))[1..] == Escaped(Core(key)[1..], special);
  }

  // ---------- which copies are withheld ----------

  lemma {:induction false} Backslashes(a: string, b: string)
    requires AllBackslash(a) && AllBackslash(b) && |a| == |b|
    ensures a == b
  {
  }

  lemma {:induction false} Padded(before: string, x: string, mid: string, y: string, after: string)
    requires AllBackslash(before) && AllBackslash(x) && |x| <= |before|
    requires AllBackslash(after) && AllBackslash(y) && |y| <= |after|
    ensures Contains(before + mid + after, x + mid + y)
  {
    var n := |before| - |x|;
    Backslashes(before[n..], x);
    Backslashes(after[..|y|], y);
    assert before + mid + after == before[..n] + (x + mid + y) + after[|y|..];
    assert At(before + mid + after, x + mid + y, n);
  }

  /** A plain tail gains nothing from escaping quotes and backslashes too. */
  lemma {:induction false} CoreCopied(c: string, few: set<char>, more: set<char>) returns (lead: string)
    requires few <= more <= few + {'"', '\\'} && '\\' !in few && IsCore(c)
    requires forall i :: 1 <= i < |c| ==> c[i] != '"' && c[i] != '\\'
    ensures Escaped(c, more) == lead + Escaped(c, few) && AllBackslash(lead)
  {
    EscapedAlike(c[1..], few, more);
    HeadEscaped(c, few);
    HeadEscaped(c, more);
    lead := if c[0] in more && c[0] !in few then ['\\'] else "";
  }

  /** A key with a plain tail escaped less lies in the key escaped more. */
  lemma {:induction false} PlainTailCopied(key: string, few: set<char>, more: set<char>)
    requires few <= more <= few + {'"', '\\'} && '\\' !in few && PlainTail(key)
    ensures Contains(Escaped(key, more), Escaped(key, few))
  {
    var x, y := CoreSplit(key);
    var c := Core(key);
    EscapedAround(x, c, y, few);
    EscapedAround(x, c, y, more);
    var lead := "";
    if c != "" {
      lead := CoreCopied(c, few, more);
    }
    var mid := Escaped(c, few);
    Grouped(Escaped(x, more), lead, mid, Escaped(y, more));
    Padded(Escaped(x, more) + lead, x, mid, y, Escaped(y, more));
  }

  lemma {:induction false} NothingEscaped(s: string)
    ensures Escaped(s, {}) == s
  {
    if s == "" {
    } else {
      NothingEscaped(s[1..]);
    }
  }

  /** A character that is in no form of the key. */
  predicate Foreign(key: string, c: char) { c !in key && c != '\\' && c != '%' && HexValue(c).None? }

  predicate AllForeign(key: string, s: string) { forall i :: 0 <= i < |s| ==> Foreign(key, s[i]) }

  lemma {:induction false} ForeignEscaped(key: string, special: set<char>, c: char)
    requires Foreign(key, c)
    ensures c !in Escaped(key, special)
  {
    if key == "" {
    } else {
      assert Foreign(key[1..], c);
      ForeignEscaped(key[1..], special, c);
    }
  }

  lemma {:induction false} ForeignPercent(key: string, upper: bool, c: char)
    requires IsKey(key) && Foreign(key, c)
    ensures c !in PercentForm(key, upper)
  {
    if key == "" {
    } else {
      assert Foreign(key[1..], c);
      ForeignPercent(key[1..], upper, c);
      assert c !in PercentByte(key[0], upper);
    }
  }

  lemma {:induction false} ForeignToForms(key: string, form: string, c: char)
    requires IsKey(key) && form in FormsOf(key) && Foreign(key, c)
    ensures c !in form
  {
    ForeignEscaped(key, {'/'}, c);
    ForeignPercent(key, true, c);
    ForeignPercent(key, false, c);
  }

  /** Text with no form in it stays shown between texts of foreign characters. */
  lemma {:induction false} SurroundedShown(key: string, copy: string, a: string, b: string)
    requires IsKey(key) && forall form :: form in FormsOf(key) ==> !Contains(copy, form)
    requires AllForeign(key, a) && a != "" && !IsWhitespace(a[0])
    requires AllForeign(key, b) && b != "" && !IsWhitespace(b[|b| - 1])
    ensures !Holds(FormsOf(key), a + copy + b)
  {
    assert Trim(a + copy + b) == a + copy + b;
    forall form | form in FormsOf(key) ensures !ShowsForm(a + copy + b, form) {
      FormNotShown(key, copy, a, b, form);
    }
  }

  lemma {:induction false} ForeignText(key: string, form: string, s: string)
    requires IsKey(key) && form in FormsOf(key) && AllForeign(key, s)
    ensures forall i :: 0 <= i < |form| ==> form[i] !in s
    ensures forall i :: 0 <= i < |s| ==> s[i] !in form
  {
    forall i | 0 <= i < |s| ensures s[i] !in form {
      ForeignToForms(key, form, s[i]);
    }
  }

  lemma {:induction false} FormNotShown(key: string, copy: string, a: string, b: string, form: string)
    requires IsKey(key) && form in FormsOf(key) && !Contains(copy, form)
    requires AllForeign(key, a) && a != "" && AllForeign(key, b) && b != "" && Trim(a + copy + b) == a + copy + b
    ensures !ShowsForm(a + copy + b, form)
  {
    var line := a + copy + b;
    ForeignText(key, form, a);
    ForeignText(key, form, b);
    assert line[0] == a[0] && line[|line| - 1] == b[|b| - 1];
    if Contains(line, form) {
      LiesBetween(a, copy, b, form);
    }
    if Contains(form, line) {
      WithinFirst(line, form);
    }
    forall n | MIN_FRAGMENT <= n < |form| ensures !EdgeFragment(line, form, n) {
      if EdgeFragment(line, form, n) {
        EdgeEnds(line, form, n);
      }
    }
  }

  lemma {:induction false} NotInFront(a: string, rest: string, i: nat)
    requires i < |a + rest| && (a + rest)[i] !in a
    ensures |a| <= i
  {
  }

  lemma {:induction false} NotBehind(front: string, b: string, i: nat)
    requires i < |front + b| && (front + b)[i] !in b
    ensures i < |front|
  {
  }

  /** What neither starts nor ends in the texts around lies between them. */
  lemma {:induction false} LiesBetween(a: string, copy: string, b: string, form: string)
    requires form != "" && Contains(a + copy + b, form)
    requires form[0] !in a && form[|form| - 1] !in b
    ensures Contains(copy, form)
  {
    var line, n := a + copy + b, |form|;
    var i: nat :| i <= |line| && At(line, form, i);
    assert line[i..i + n][0] == line[i] && line[i..i + n][n - 1] == line[i + n - 1];
    assert line == a + (copy + b);
    NotInFront(a, copy + b, i);
    NotBehind(a + copy, b, i + n - 1);
    assert line[i..i + n] == copy[i - |a|..i - |a| + n];
    assert At(copy, form, i - |a|);
  }

  lemma {:induction false} WithinFirst(line: string, form: string)
    requires line != "" && Contains(form, line)
    ensures line[0] in form
  {
    var i: nat :| i <= |form| && At(form, line, i);
    assert form[i..i + |line|][0] == form[i];
  }

  lemma {:induction false} EdgeEnds(line: string, form: string, n: nat)
    requires line != "" && 0 < n <= |form| && EdgeFragment(line, form, n)
    ensures line[0] in form || line[|line| - 1] in form
  {
    if EndsWith(line, form[..n]) {
      assert line[|line| - n..][n - 1] == form[..n][n - 1] == form[n - 1];
    } else {
      assert form[|form| - n..][0] == line[0];
    }
  }

  lemma {:induction false} NoFormInCopy(key: string, slashes: bool, form: string)
    requires IsKey(key) && Core(key) != "" && !PlainTail(key) && form in FormsOf(key)
    requires JsonForm(Core(key)[1..], slashes) != Core(key)[1..]
    requires JsonForm(Core(key)[1..], slashes) != SlashForm(Core(key)[1..])
    ensures !Contains(JsonForm(key, slashes), form)
  {
    if form == key || form == SlashForm(key) {
      NothingEscaped(key);
      NothingEscaped(Core(key)[1..]);
      if Contains(JsonForm(key, slashes), form) {
        CopyInCopy(key, if form == key then {} else {'/'}, JsonEscapes(slashes));
      }
    } else {
      NeedsEscaping(key);
      PercentNotInCopy(key, form == PercentForm(key, true), JsonEscapes(slashes));
    }
  }

  lemma {:induction false} NeedsEscaping(key: string)
    requires !PlainTail(key)
    ensures exists i :: 0 <= i < |key| && (key[i] == '"' || key[i] == '\\')
  {
    var x, y := CoreSplit(key);
    var i :| 1 <= i < |Core(key)| && (Core(key)[i] == '"' || Core(key)[i] == '\\');
    assert key[|x| + i] == Core(key)[i];
  }

  /** A JSON-escaped copy whose tail differs from the key's and from its slash
      form's is shown. */
  lemma {:induction false} JsonCopyShown(key: string, slashes: bool, a: string, b: string)
    requires IsKey(key) && !PlainTail(key) && (slashes || NoEscapedSlash(key))
    requires AllForeign(key, a) && a != "" && !IsWhitespace(a[0])
    requires AllForeign(key, b) && b != "" && !IsWhitespace(b[|b| - 1])
    ensures !Holds(FormsOf(key), a + JsonForm(key, slashes) + b)
  {
    TailEscapesDiffer(key, slashes);
    forall form | form in FormsOf(key) ensures !Contains(JsonForm(key, slashes), form) {
      NoFormInCopy(key, slashes, form);
    }
    SurroundedShown(key, JsonForm(key, slashes), a, b);
  }

  /** No slash of the key looks escaped already. */
  predicate NoEscapedSlash(key: string) {
    forall i :: 0 <= i < |key| - 1 && key[i] == '\\' ==> key[i + 1] != '/'
  }

  lemma {:induction false} TailEscapesDiffer(key: string, slashes: bool)
    requires !PlainTail(key) && (slashes || NoEscapedSlash(key))
    ensures Core(key) != ""
    ensures var t := Core(key)[1..]; JsonForm(t, slashes) != t && JsonForm(t, slashes) != SlashForm(t)
  {
    var c := Core(key);
    var t := c[1..];
    var i :| 1 <= i < |c| && (c[i] == '"' || c[i] == '\\');
    assert t[i - 1] == c[i];
    NothingEscaped(t);
    EscapedLonger(t, {}, JsonEscapes(slashes));
    if slashes {
      EscapedLonger(t, {'/'}, JsonEscapes(true));
    } else {
      var x, y := CoreSplit(key);
      forall k | 0 <= k < |t| - 1 && t[k] == '\\' ensures t[k + 1] != '/' {
        assert key[|x| + 1 + k] == t[k] && key[|x| + 2 + k] == t[k + 1];
      }
      if JsonForm(t, false) == SlashForm(t) {
        assert "" + JsonForm(t, false) == JsonForm(t, false);
        SlashesApart(t, "");
      }
    }
  }

  /** Escaping quotes and backslashes is never escaping slashes, unless a
      backslash stands before a slash. */
  lemma {:induction false} SlashesApart(t: string, lead: string)
    requires AllBackslash(lead) && NoEscapedSlash(t) && lead + JsonForm(t, false) == SlashForm(t)
    requires lead != "" && t != "" ==> t[0] != '/'
    ensures lead == "" && '"' !in t && '\\' !in t
  {
    if t == "" {
    } else {
      var j, s := JsonForm(t[1..], false), SlashForm(t[1..]);
      var whole := lead + JsonForm(t, false);
      assert whole[0] == SlashForm(t)[0];
      assert SlashForm(t)[1..] == if t[0] == '/' then ['/'] + s else s;
      if t[0] == '\\' {
        assert JsonForm(t, false) == "\\\\" + j;
        assert whole[1..] == (lead + ['\\']) + j;
        SlashesApart(t[1..], lead + ['\\']);
      } else {
        assert lead == "";
        assert whole[1..] == j;
        SlashesApart(t[1..], "");
        assert "" + j == j;
        assert t == [t[0]] + t[1..];
      }
    }
  }

  lemma {:induction false} CopyHeld(key: string, slashes: bool, a: string, b: string)
    requires IsKey(key) && key != "" && PlainTail(key)
    ensures Holds(FormsOf(key), a + JsonForm(key, slashes) + b)
  {
    var form := if slashes then SlashForm(key) else key;
    NothingEscaped(key);
    PlainTailCopied(key, if slashes then {'/'} else {}, JsonEscapes(slashes));
    StillContains(a, JsonForm(key, slashes), b, form);
    assert form in FormsOf(key) && ShowsForm(a + JsonForm(key, slashes) + b, form);
  }

  lemma {:induction false} StillContains(a: string, copy: string, b: string, form: string)
    requires Contains(copy, form)
    ensures Contains(a + copy + b, form)
  {
    var i: nat :| i <= |copy| && At(copy, form, i);
    var line := a + copy + b;
    assert line[|a| + i..|a| + i + |form|] == copy[i..i + |form|];
    assert At(line, form, |a| + i);
  }

  /** The JSON-escaped copy of a secret is withheld wherever it stands in a
      line: exactly when, the backslashes at its ends aside, the secret holds no
      backslash and no quote after its first character. An encoder that leaves
      slashes alone must not meet one that looks escaped. */
  lemma {:induction false} JsonCopyHeldIff(key: string, slashes: bool)
    requires IsKey(key) && key != "" && (slashes || NoEscapedSlash(key))
    ensures (forall a, b :: Holds(FormsOf(key), a + JsonForm(key, slashes) + b)) <==> PlainTail(key)
  {
    if PlainTail(key) {
      forall a, b ensures Holds(FormsOf(key), a + JsonForm(key, slashes) + b) {
        CopyHeld(key, slashes, a, b);
      }
    } else {
      var pad := ['\U{e9}'];
      assert AllForeign(key, pad);
      JsonCopyShown(key, slashes, pad, pad);
      assert !Holds(FormsOf(key), pad + JsonForm(key, slashes) + pad);
    }
  }

  /** One that does may be withheld all the same, as its own slash form. */
  lemma {:induction false} EscapedSlashHeld(p: string, q: string)
    requires Plain(p, JsonEscapes(true)) && Plain(q, JsonEscapes(true))
    ensures JsonForm(p + ['\\', '/'] + q, false) == SlashForm(p + ['\\', '/'] + q)
  {
    var mid := ['\\'] + ['/'];
    EscapedMiddle(p, mid, q, JsonEscapes(false));
    EscapedMiddle(p, mid, q, {'/'});
    PairEscaped(JsonEscapes(false));
    PairEscaped({'/'});
    assert mid == ['\\', '/'];
  }

  lemma {:induction false} PairEscaped(special: set<char>)
    requires '\\' in special <==> '/' !in special
    ensures Escaped(['\\'] + ['/'], special) == ['\\', '\\', '/']
  {
    EscapedAppend(['\\'], ['/'], special);
    CharEscaped('\\', special);
    CharEscaped('/', special);
  }

  /** ... and for every secret: every encoder's copy is withheld, slashes
      escaped or not, exactly then. */
  lemma {:induction false} JsonCopiesHeldIff(key: string)
    requires IsKey(key) && key != ""
    ensures (forall slashes, a, b :: Holds(FormsOf(key), a + JsonForm(key, slashes) + b)) <==> PlainTail(key)
  {
    JsonCopyHeldIff(key, true);
    if PlainTail(key) {
      forall slashes, a, b ensures Holds(FormsOf(key), a + JsonForm(key, slashes) + b) {
        CopyHeld(key, slashes, a, b);
      }
    }
  }

  /** For a secret that starts and ends with another character that is: exactly
      when it holds neither quote nor backslash. */
  lemma {:induction false} PlainTailIff(key: string)
    requires IsCore(key) && key[0] != '"'
    ensures PlainTail(key) <==> '"' !in key && '\\' !in key
  {
    CoreOf("", key, "");
    assert "" + key + "" == key;
  }

  lemma {:induction false} QuoteEscaped(p: string, q: string)
    requires Plain(p, JsonEscapes(false)) && Plain(q, JsonEscapes(false))
    ensures JsonForm(p + ['"'] + q, false) == p + ['\\', '"'] + q
  {
    EscapedMiddle(p, ['"'], q, JsonEscapes(false));
    CharEscaped('"', JsonEscapes(false));
  }

  /** A quote inside is escaped by every encoder and by no form. */
  lemma {:induction false} QuotedShown(p: string, q: string, a: string, b: string)
    requires IsKey(p + ['"'] + q) && p != ""
    requires Plain(p, JsonEscapes(false)) && Plain(q, JsonEscapes(false))
    requires AllForeign(p + ['"'] + q, a) && a != "" && !IsWhitespace(a[0])
    requires AllForeign(p + ['"'] + q, b) && b != "" && !IsWhitespace(b[|b| - 1])
    ensures !Holds(FormsOf(p + ['"'] + q), a + (p + ['\\', '"'] + q) + b)
  {
    var key := p + ['"'] + q;
    QuoteEscaped(p, q);
    PlainTailIff(key);
    assert key[|p|] == '"';
    JsonCopyShown(key, false, a, b);
  }

  /** Such a secret is accepted: a proxy URL with a quote. Its JSON-escaped copy
      is shown. */
  lemma {:induction false} QuotedProxyShown(key: string, line: string)
    requires key == "http://h/\"x" && line == "z http://h/\\\"x z"
    ensures IsKey(key) && line == "z " + JsonForm(key, false) + " z"
    ensures !Holds(FormsOf(key), line)
  {
    QuotedParts(key, line);
    QuoteEscaped(key[..9], key[10..]);
    QuotedShown(key[..9], key[10..], line[..2], line[14..]);
  }

  lemma {:induction false} QuotedParts(key: string, line: string)
    requires key == "http://h/\"x" && line == "z http://h/\\\"x z"
    ensures key == key[..9] + ['"'] + key[10..] && line == line[..2] + (key[..9] + ['\\', '"'] + key[10..]) + line[14..]
    ensures line[..2] == "z " && line[14..] == " z"
  {
  }
}
