/**
 What the redactor shows (crates/pocox-core/src/redact.rs, `Redactor::text`):
 every line that holds no secret, as it was, and the notice for the others.
 */
module RedactorOutput {
  import opened Text
  import opened Redactor

  const NOTICE: string := "[line withheld: it held the key]"

  // ---------- lines ----------

  /** A line ends before a newline, or before a carriage return and a newline; a
      last line needs no end, and an empty rest is none. */
  lemma {:induction false} LinesOf(line: string, rest: string)
    requires '\n' !in line
    ensures TextLines("") == []
    ensures line != "" ==> TextLines(line) == [line]
    ensures TextLines(line + "\r\n" + rest) == [line] + TextLines(rest)
    ensures line == "" || line[|line| - 1] != '\r' ==> TextLines(line + "\n" + rest) == [line] + TextLines(rest)
  {
    SplitWhole(line, '\n');
    LineThenRest(line, rest);
    LineThenRest(line + "\r", rest);
    assert line + "\r" + "\n" + rest == line + "\r\n" + rest;
    assert (line + "\r")[..|line|] == line && (line + "\r")[|line|..] == "\r";
  }

  lemma {:induction false} LineThenRest(line: string, rest: string)
    requires '\n' !in line
    ensures TextLines(line + "\n" + rest) == [WithoutReturn(line)] + TextLines(rest)
  {
    var text := line + "\n" + rest;
    SplitWhole(line, '\n');
    SplitAppend(line, '\n', rest);
    assert Split(text, '\n') == [line] + Split(rest, '\n');
    PiecesAfter(text, line, rest);
    WithoutReturnsAfter(line, EndedPieces(rest, '\n'));
    var last := if LastPiece(rest, '\n') == "" then [] else [LastPiece(rest, '\n')];
    assert TextLines(text) == [WithoutReturn(line)] + WithoutReturns(EndedPieces(rest, '\n')) + last;
  }

  lemma {:induction false} WithoutReturnsAfter(line: string, parts: seq<string>)
    ensures WithoutReturns([line] + parts) == [WithoutReturn(line)] + WithoutReturns(parts)
  {
  }

  lemma {:induction false} PiecesAfter(text: string, line: string, rest: string)
    requires Split(text, '\n') == [line] + Split(rest, '\n')
    ensures LastPiece(text, '\n') == LastPiece(rest, '\n')
    ensures EndedPieces(text, '\n') == [line] + EndedPieces(rest, '\n')
  {
  }

  /** Lines as a text has them: no newline inside, no return at the end, and the
      last one not empty. */
  predicate AreLines(lines: seq<string>) {
    && lines != [] && lines[|lines| - 1] != ""
    && forall i :: 0 <= i < |lines| ==> '\n' !in lines[i] && (lines[i] == "" || lines[i][|lines[i]| - 1] != '\r')
  }

  lemma {:induction false} LinesJoined(lines: seq<string>)
    requires AreLines(lines)
    ensures TextLines(Join(lines, '\n')) == lines
  {
    if |lines| == 1 {
      LinesOf(lines[0], "");
    } else {
      assert AreLines(lines[1..]);
      LinesJoined(lines[1..]);
      LinesOf(lines[0], Join(lines[1..], '\n'));
      assert lines == [lines[0]] + lines[1..];
    }
  }

  // ---------- which lines are replaced ----------

  ghost predicate Occurs(s: string, t: string) { exists a, b :: s == a + t + b }

  /** The line holds the whole form; or it is, trimmed, a piece of it of at least
      four bytes; or it ends, trimmed, with at least four first characters of it,
      or starts with at least four last ones. */
  ghost predicate Tells(line: string, form: string) {
    var bare := Trim(line);
    || Occurs(line, form)
    || (ByteLen(bare) >= 4 && Occurs(form, bare))
    || (exists n :: 4 <= n < |form| && n <= |bare| && bare[|bare| - n..] == form[..n])
    || (exists n :: 4 <= n < |form| && n <= |bare| && bare[..n] == form[|form| - n..])
  }

  ghost predicate Telling(forms: set<string>, line: string) { exists form :: form in forms && Tells(line, form) }

  lemma {:induction false} OccursIff(s: string, t: string)
    ensures Occurs(s, t) <==> Contains(s, t)
  {
    if Contains(s, t) {
      var i: nat :| i <= |s| && At(s, t, i);
      assert s == s[..i] + t + s[i + |t|..];
    }
    if Occurs(s, t) {
      var a, b :| s == a + t + b;
      assert At(s, t, |a|);
    }
  }

  lemma {:induction false} EdgeIff(bare: string, form: string, n: nat)
    requires n <= |form|
    ensures EdgeFragment(bare, form, n) <==>
            n <= |bare| && (bare[|bare| - n..] == form[..n] || bare[..n] == form[|form| - n..])
  {
  }

  lemma {:induction false} TellsIff(line: string, form: string)
    ensures Tells(line, form) <==> ShowsForm(line, form)
  {
    OccursIff(line, form);
    OccursIff(form, Trim(line));
    forall n: nat | n <= |form|
      ensures EdgeFragment(Trim(line), form, n) <==>
              n <= |Trim(line)| && (Trim(line)[|Trim(line)| - n..] == form[..n]
                                    || Trim(line)[..n] == form[|form| - n..])
    {
      EdgeIff(Trim(line), form, n);
    }
  }

  lemma {:induction false} TellingIff(forms: set<string>, line: string)
    ensures Telling(forms, line) <==> Holds(forms, line)
  {
    forall form ensures Tells(line, form) <==> ShowsForm(line, form) {
      TellsIff(line, form);
    }
  }

  /** What is shown of a line. */
  ghost function Shown(forms: set<string>, line: string): string {
    if Telling(forms, line) then NOTICE else line
  }

  /** The text shown has the lines of the text, in their places: the notice for
      exactly those that tell of a form, and the others as they were. Without a
      secret the text is untouched. */
  lemma {:induction false} FilteredLines(forms: set<string>, text: string)
    ensures forms == {} ==> Filtered(forms, text) == text
    ensures forms != {} && TextLines(text) == [] ==> Filtered(forms, text) == ""
    ensures forms != {} && TextLines(text) != [] ==>
              var lines, shown := TextLines(text), Split(Filtered(forms, text), '\n');
              |shown| == |lines| && forall i :: 0 <= i < |lines| ==> shown[i] == Shown(forms, lines[i])
  {
    var lines := TextLines(text);
    if forms != {} && lines != [] {
      var shown := ShownLines(forms, lines);
      forall i | 0 <= i < |lines| ensures shown[i] == Shown(forms, lines[i]) && '\n' !in shown[i] {
        LinePlain(text, i);
        TellingIff(forms, lines[i]);
      }
      SplitJoin(shown, '\n');
    }
  }

  lemma {:induction false} LinePlain(text: string, i: nat)
    requires i < |TextLines(text)|
    ensures '\n' !in TextLines(text)[i]
  {
    PiecesPlain(text, '\n');
    var parts := Split(text, '\n');
    assert '\n' !in parts[i];
  }

  /** The same for a text of one line, as it is shown. */
  lemma {:induction false} LineShown(forms: set<string>, line: string)
    requires line != "" && '\n' !in line && ByteLen(line) <= 600
    ensures Bounded(Filtered(forms, line)) == Shown(forms, line)
  {
    LinesOf(line, "");
    TellingIff(forms, line);
    assert ShownLines(forms, [line]) == [Shown(forms, line)];
    LengthBound(NOTICE);
  }

  // ---------- harmless text is shown ----------

  /** No form, and no four characters in a row of one, is anywhere in the line. */
  ghost predicate Harmless(forms: set<string>, line: string) {
    forall form :: form in forms ==>
      !Occurs(line, form) && forall piece :: |piece| == 4 && Occurs(form, piece) ==> !Occurs(line, piece)
  }

  predicate Ascii(s: string) { forall i :: 0 <= i < |s| ==> s[i] as int < 0x80 }

  lemma {:induction false} OccursWithin(s: string, t: string, u: string)
    requires Occurs(s, t) && Occurs(t, u)
    ensures Occurs(s, u)
  {
    var a, b :| s == a + t + b;
    var c, d :| t == c + u + d;
    assert s == (a + c) + u + (d + b);
  }

  lemma {:induction false} SliceOccurs(s: string, i: nat, j: nat)
    requires i <= j <= |s|
    ensures Occurs(s, s[i..j])
  {
    assert s == s[..i] + s[i..j] + s[j..];
  }

  lemma {:induction false} TrimOccurs(line: string)
    ensures Occurs(line, Trim(line))
  {
    var k := TrimSlice(line);
    SliceOccurs(line, k, k + |Trim(line)|);
  }

  /** Four or more characters that a line and a form have in common do harm. */
  lemma {:induction false} CommonHarms(forms: set<string>, line: string, form: string, common: string)
    requires form in forms && |common| >= 4 && Occurs(form, common) && Occurs(Trim(line), common)
    ensures !Harmless(forms, line)
  {
    var piece := common[0..4];
    SliceOccurs(common, 0, 4);
    TrimOccurs(line);
    OccursWithin(line, Trim(line), common);
    OccursWithin(line, common, piece);
    OccursWithin(form, common, piece);
  }

  lemma {:induction false} AsciiPiece(form: string, piece: string)
    requires Ascii(form) && Occurs(form, piece)
    ensures ByteLen(piece) == |piece|
  {
    var a, b :| form == a + piece + b;
    forall m | 0 <= m < |piece| ensures piece[m] as int < 0x80 {
      assert form[|a| + m] == piece[m];
    }
    AsciiLength(piece);
  }

  lemma {:induction false} WholeOccurs(s: string)
    ensures Occurs(s, s)
  {
    assert s[0..|s|] == s;
    SliceOccurs(s, 0, |s|);
  }

  lemma {:induction false} HarmlessTellsNothing(forms: set<string>, line: string)
    requires Harmless(forms, line) && forall form :: form in forms ==> Ascii(form)
    ensures !Telling(forms, line)
  {
    forall form | form in forms ensures !Tells(line, form) {
      FormHarmless(forms, line, form);
    }
  }

  lemma {:induction false} FormHarmless(forms: set<string>, line: string, form: string)
    requires Harmless(forms, line) && form in forms && Ascii(form)
    ensures !Tells(line, form)
  {
    var bare := Trim(line);
    if ByteLen(bare) >= 4 && Occurs(form, bare) {
      AsciiPiece(form, bare);
      WholeOccurs(bare);
      CommonHarms(forms, line, form, bare);
    }
    if n :| 4 <= n < |form| && n <= |bare| && bare[|bare| - n..] == form[..n] {
      assert form[0..n] == form[..n] && bare[|bare| - n..|bare|] == bare[|bare| - n..];
      SliceOccurs(form, 0, n);
      SliceOccurs(bare, |bare| - n, |bare|);
      CommonHarms(forms, line, form, form[..n]);
    }
    if n :| 4 <= n < |form| && n <= |bare| && bare[..n] == form[|form| - n..] {
      assert form[|form| - n..|form|] == form[|form| - n..] && bare[0..n] == bare[..n];
      SliceOccurs(form, |form| - n, |form|);
      SliceOccurs(bare, 0, n);
      CommonHarms(forms, line, form, bare[..n]);
    }
  }

  /** A text of at most 600 bytes, none of whose lines holds a form or four
      characters of one, is shown as it is. */
  lemma {:induction false} HarmlessShown(forms: set<string>, lines: seq<string>)
    requires AreLines(lines) && ByteLen(Join(lines, '\n')) <= 600
    requires forall form :: form in forms ==> Ascii(form)
    requires forall i :: 0 <= i < |lines| ==> Harmless(forms, lines[i])
    ensures Bounded(Filtered(forms, Join(lines, '\n'))) == Join(lines, '\n')
  {
    if forms != {} {
      LinesJoined(lines);
      forall i | 0 <= i < |lines| ensures ShownLine(forms, lines[i]) == lines[i] {
        HarmlessTellsNothing(forms, lines[i]);
        TellingIff(forms, lines[i]);
      }
      assert ShownLines(forms, lines) == lines;
    }
  }

  lemma {:induction false} FormAscii(key: string, form: string)
    requires IsKey(key) && form in FormsOf(key)
    ensures Ascii(form)
  {
    assert IsKey(form);
  }

  /** For a redactor of one key: the text as it is, unless some line holds the
      key, its percent-encoding in either case or its copy with slashes escaped,
      or four characters of one of these. */
  lemma {:induction false} KeyTextShown(key: string, lines: seq<string>)
    requires IsKey(key) && AreLines(lines) && ByteLen(Join(lines, '\n')) <= 600
    requires key != "" ==> forall i :: 0 <= i < |lines| ==>
               Harmless({key, PercentForm(key, true), PercentForm(key, false), SlashForm(key)}, lines[i])
    ensures Bounded(Filtered(FormsOf(key), Join(lines, '\n'))) == Join(lines, '\n')
  {
    if key != "" {
      var forms := FormsOf(key);
      assert forms == {key, PercentForm(key, true), PercentForm(key, false), SlashForm(key)};
      forall form | form in forms ensures Ascii(form) {
        FormAscii(key, form);
      }
      HarmlessShown(forms, lines);
    }
  }

  /** The secrets meant: no character below the space or above the tilde. */
  lemma {:induction false} KeyIff(s: string)
    ensures IsKey(s) <==> forall i :: 0 <= i < |s| ==> 32 <= s[i] as int <= 126
  {
  }

  /** Slashes are escaped character by character, and nothing else is. */
  lemma {:induction false} SlashIs(a: string, c: char, b: string)
    ensures SlashForm("") == "" && SlashForm(a + [c] + b) == SlashForm(a) + SlashForm([c]) + SlashForm(b)
    ensures SlashForm([c]) == if c == '/' then "\\/" else [c]
  {
    EscapedAppend(a + [c], b, {'/'});
    EscapedAppend(a, [c], {'/'});
    assert [c][1..] == "";
  }

  // ---------- the bound ----------

  /** A longer text is cut after the last character that fits in 600 bytes. */
  lemma {:induction false} BoundedCut(s: string)
    ensures ByteLen(s) <= 600 ==> Bounded(s) == s
    ensures ByteLen(s) > 600 ==>
              exists k :: 0 <= k < |s| && Bounded(s) == s[..k] + ['\U{2026}']
                          && ByteLen(s[..k]) <= 600 && ByteLen(s[..k + 1]) > 600
  {
    if ByteLen(s) > 600 {
      PrefixMaximal(s, 600);
      var k := |Prefix(s, 600)|;
      assert s[..k] == Prefix(s, 600);
    }
  }

  lemma {:induction false} PrefixMaximal(s: string, n: nat)
    requires ByteLen(s) > n
    ensures var k := |Prefix(s, n)|; k < |s| && ByteLen(s[..k]) <= n && ByteLen(s[..k + 1]) > n
  {
    if CharBytes(s[0]) > n {
      assert s[..1][1..] == "";
    } else {
      var rest := n - CharBytes(s[0]);
      PrefixMaximal(s[1..], rest);
      var k := |Prefix(s[1..], rest)|;
      assert s[..k + 1][1..] == s[1..][..k] && s[..k + 2][1..] == s[1..][..k + 1];
    }
  }
}
