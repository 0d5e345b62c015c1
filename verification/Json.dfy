/**
 JSON values with RFC 6901 pointers, as serde_json resolves them: `pointer`
 reads the addressed value and `pointer_mut` overwrites it.
 */
module Json {
  import opened Text

  datatype Json =
    | Null
    | Bool(flag: bool)
    | Number(text: string)
    | Str(s: string)
    | Arr(items: seq<Json>)
    | Obj(fields: seq<Field>)

  datatype Field = Field(key: string, value: Json)

  // ---------- containers, seen as numbered children ----------

  function Arity(v: Json): nat {
    match v
    case Arr(items) => |items|
    case Obj(fields) => |fields|
    case _ => 0
  }

  function Child(v: Json, i: nat): (c: Json)
    requires i < Arity(v)
    ensures c < v
  {
    match v
    case Arr(items) => items[i]
    case Obj(fields) => fields[i].value
  }

  /** The reference token naming child `i`: its index, or its member name. */
  function ChildToken(v: Json, i: nat): string
    requires i < Arity(v)
  {
    match v
    case Arr(_) => Decimal(i)
    case Obj(fields) => fields[i].key
  }

  function WithChild(v: Json, i: nat, c: Json): (w: Json)
    requires i < Arity(v)
    ensures Arity(w) == Arity(v) && Child(w, i) == c
    ensures forall j :: 0 <= j < Arity(v) ==> ChildToken(w, j) == ChildToken(v, j)
    ensures forall j :: 0 <= j < Arity(v) && j != i ==> Child(w, j) == Child(v, j)
  {
    match v
    case Arr(items) => Arr(items[i := c])
    case Obj(fields) => Obj(fields[i := Field(fields[i].key, c)])
  }

  /** Code-point order, which is also the byte order of UTF-8 text. */
  predicate Less(a: string, b: string) {
    if b == "" then false
    else if a == "" then true
    else a[0] < b[0] || (a[0] == b[0] && Less(a[1..], b[1..]))
  }

  lemma {:induction false} LessIrreflexive(a: string)
    ensures !Less(a, a)
  {
    if a == "" {
    } else {
      LessIrreflexive(a[1..]);
    }
  }

  /** One key sorts before another when it is a proper prefix of it, or the first
      characters they differ in do. */
  lemma {:induction false} LessIff(a: string, b: string)
    ensures Less(a, b) <==>
            exists k :: 0 <= k <= |a| && k < |b| && a[..k] == b[..k] && (k == |a| || a[k] < b[k])
  {
    if b == "" || a == "" {
      assert b != "" ==> a[..0] == b[..0];
    } else {
      var c, d := a[1..], b[1..];
      LessIff(c, d);
      if k :| 0 <= k <= |c| && k < |d| && c[..k] == d[..k] && (k == |c| || c[k] < d[k]) {
        if a[0] == b[0] {
          assert a[..k + 1] == [a[0]] + c[..k] && b[..k + 1] == [b[0]] + d[..k];
        }
      }
      if k :| 0 <= k <= |a| && k < |b| && a[..k] == b[..k] && (k == |a| || a[k] < b[k]) {
        if k > 0 {
          assert a[0] == a[..k][0] && b[0] == b[..k][0];
          assert c[..k - 1] == a[..k][1..] && d[..k - 1] == b[..k][1..];
        }
      }
      assert a[..0] == b[..0];
    }
  }

  /** Objects list their members in the order of the source's sorted map. */
  predicate WellFormed(v: Json) {
    (v.Obj? ==> forall i, j :: 0 <= i < j < |v.fields| ==> Less(v.fields[i].key, v.fields[j].key))
    && forall i :: 0 <= i < Arity(v) ==> WellFormed(Child(v, i))
  }

  /** An object is well formed exactly when its members are and sort before one
      added at its end; an array when its items are; any other value always. */
  lemma {:induction false} WellFormedIs(fields: seq<Field>, key: string, items: seq<Json>, v: Json)
    ensures WellFormed(Obj([])) && WellFormed(Arr([])) && (v.Arr? || v.Obj? || WellFormed(v))
    ensures WellFormed(Arr(items + [v])) <==> WellFormed(Arr(items)) && WellFormed(v)
    ensures WellFormed(Obj(fields + [Field(key, v)])) <==>
            && WellFormed(Obj(fields)) && WellFormed(v)
            && forall i :: 0 <= i < |fields| ==> Less(fields[i].key, key)
  {
    var a, b := Arr(items + [v]), Obj(fields + [Field(key, v)]);
    assert Child(a, |items|) == v && Child(b, |fields|) == v;
    assert forall i :: 0 <= i < |items| ==> Child(a, i) == Child(Arr(items), i);
    assert forall i :: 0 <= i < |fields| ==> Child(b, i) == Child(Obj(fields), i) && b.fields[i] == fields[i];
    assert b.fields[|fields|].key == key;
  }

  // ---------- reference tokens ----------

  /** An array index token: no sign, no leading zero, digits only. */
  function ParseIndex(token: string): Option<nat> {
    if |token| > 1 && token[0] == '0' then None else ParseDigits(token)
  }

  function FindKey(fields: seq<Field>, key: string): (i: Option<nat>)
    ensures i.Some? ==> i.value < |fields| && fields[i.value].key == key
  {
    if fields == [] then None
    else if fields[0].key == key then Some(0)
    else match FindKey(fields[1..], key)
         case None => None
         case Some(i) => Some(i + 1)
  }

  lemma {:induction false} FindKeyByKeys(f: seq<Field>, g: seq<Field>, key: string)
    requires |f| == |g| && forall i :: 0 <= i < |f| ==> f[i].key == g[i].key
    ensures FindKey(f, key) == FindKey(g, key)
  {
    if f == [] {
    } else {
      FindKeyByKeys(f[1..], g[1..], key);
    }
  }

  lemma {:induction false} FindKeyAt(fields: seq<Field>, i: nat)
    requires i < |fields|
    requires forall a, b :: 0 <= a < b < |fields| ==> Less(fields[a].key, fields[b].key)
    ensures FindKey(fields, fields[i].key) == Some(i)
  {
    if i == 0 {
    } else {
      LessIrreflexive(fields[i].key);
      FindKeyAt(fields[1..], i - 1);
    }
  }

  /** Which child a token selects. */
  function Select(v: Json, token: string): (i: Option<nat>)
    ensures i.Some? ==> i.value < Arity(v)
  {
    match v
    case Arr(items) =>
      (match ParseIndex(token)
       case Some(i) => if i < |items| then Some(i) else None
       case None => None)
    case Obj(fields) => FindKey(fields, token)
    case _ => None
  }

  lemma {:induction false} SelectInverse(v: Json, token: string)
    ensures Select(v, token).Some? ==> ChildToken(v, Select(v, token).value) == token
  {
    if v.Arr? && ParseIndex(token).Some? { DecimalParse(token); }
  }

  lemma {:induction false} SelectChild(v: Json, i: nat)
    requires WellFormed(v) && i < Arity(v)
    ensures Select(v, ChildToken(v, i)) == Some(i)
  {
    if v.Arr? { ParseDecimal(i); } else { FindKeyAt(v.fields, i); }
  }

  /** Two containers with the same shape select alike. */
  predicate SameShape(v: Json, w: Json) {
    (v.Arr? && w.Arr? && |v.items| == |w.items|)
    || (v.Obj? && w.Obj? && |v.fields| == |w.fields|
        && forall i :: 0 <= i < |v.fields| ==> v.fields[i].key == w.fields[i].key)
  }

  lemma {:induction false} SelectByShape(v: Json, w: Json, token: string)
    requires SameShape(v, w)
    ensures Select(v, token) == Select(w, token) && Arity(v) == Arity(w)
  {
    if v.Obj? { FindKeyByKeys(v.fields, w.fields, token); }
  }

  // ---------- paths of decoded tokens ----------

  type Path = seq<string>

  function Lookup(v: Json, p: Path): Option<Json> {
    if p == [] then Some(v)
    else match Select(v, p[0])
         case None => None
         case Some(i) => Lookup(Child(v, i), p[1..])
  }

  /** The value with the addressed one overwritten. */
  function Replace(v: Json, p: Path, x: Json): Option<Json> {
    if p == [] then Some(x)
    else match Select(v, p[0])
         case None => None
         case Some(i) =>
           match Replace(Child(v, i), p[1..], x)
           case None => None
           case Some(c) => Some(WithChild(v, i, c))
  }

  // ---------- pointer text ----------

  function ReplaceChar(s: string, c: char, text: string): string {
    if s == "" then "" else (if s[0] == c then text else [s[0]]) + ReplaceChar(s[1..], c, text)
  }

  /** `replace` of the two-character pattern `[a, b]`, leftmost first. */
  function ReplacePair(s: string, a: char, b: char, one: char): string {
    if |s| < 2 then s
    else if s[0] == a && s[1] == b then [one] + ReplacePair(s[2..], a, b, one)
    else [s[0]] + ReplacePair(s[1..], a, b, one)
  }

  function Escape(token: string): string {
    ReplaceChar(ReplaceChar(token, '~', "~0"), '/', "~1")
  }

  function Unescape(text: string): string {
    ReplacePair(ReplacePair(text, '~', '1', '/'), '~', '0', '~')
  }

  lemma {:induction false} ReplacePairSkip(x: char, s: string, a: char, b: char, one: char)
    requires x != a || s == "" || s[0] != b
    ensures ReplacePair([x] + s, a, b, one) == [x] + ReplacePair(s, a, b, one)
  {
    assert ([x] + s)[1..] == s;
  }

  lemma {:induction false} UnescapeSlashes(token: string)
    ensures var tildes := ReplaceChar(token, '~', "~0");
            ReplacePair(ReplaceChar(tildes, '/', "~1"), '~', '1', '/') == tildes
  {
    if token == "" {
    } else {
      var x, rest := token[0], token[1..];
      UnescapeSlashes(rest);
      var tildes := ReplaceChar(rest, '~', "~0");
      var both := ReplaceChar(tildes, '/', "~1");
      if x == '~' {
        assert ("~0" + tildes)[1..][1..] == tildes && ("~0" + tildes)[1..][0] == '0';
        assert ReplaceChar(("~0" + tildes)[1..], '/', "~1") == "0" + both;
        assert ReplaceChar("~0" + tildes, '/', "~1") == "~" + ("0" + both);
        ReplacePairSkip('0', both, '~', '1', '/');
        ReplacePairSkip('~', "0" + both, '~', '1', '/');
        assert "~" + ("0" + tildes) == "~0" + tildes;
      } else {
        assert ([x] + tildes)[1..] == tildes;
        if x == '/' {
          assert ("~1" + both)[2..] == both;
        } else {
          ReplacePairSkip(x, both, '~', '1', '/');
        }
      }
    }
  }

  lemma {:induction false} UnescapeTildes(token: string)
    ensures ReplacePair(ReplaceChar(token, '~', "~0"), '~', '0', '~') == token
  {
    if token == "" {
    } else {
      var tildes := ReplaceChar(token[1..], '~', "~0");
      UnescapeTildes(token[1..]);
      if token[0] == '~' {
        assert ("~0" + tildes)[2..] == tildes;
      } else {
        ReplacePairSkip(token[0], tildes, '~', '0', '~');
      }
      assert token == [token[0]] + token[1..];
    }
  }

  /** Section 4 of RFC 6901: decoding undoes the escaping of a member name. */
  lemma {:induction false} UnescapeEscape(token: string)
    ensures Unescape(Escape(token)) == token
  {
    UnescapeSlashes(token);
    UnescapeTildes(token);
  }

  lemma {:induction false} ReplaceCharAbsent(s: string, c: char, text: string)
    requires c !in text
    ensures c !in ReplaceChar(s, c, text)
  {
    if s == "" {
    } else {
      ReplaceCharAbsent(s[1..], c, text);
    }
  }

  lemma {:induction false} ReplaceCharIdentity(s: string, c: char, text: string)
    requires c !in s
    ensures ReplaceChar(s, c, text) == s
  {
    if s == "" {
    } else {
      ReplaceCharIdentity(s[1..], c, text);
      assert s == [s[0]] + s[1..];
    }
  }

  lemma {:induction false} EscapeDecimal(n: nat)
    ensures Escape(Decimal(n)) == Decimal(n)
  {
    ReplaceCharIdentity(Decimal(n), '~', "~0");
    ReplaceCharIdentity(Decimal(n), '/', "~1");
  }

  /** The pointer text of a path. */
  function PointerOf(p: Path): string {
    if p == [] then "" else PointerOf(p[..|p| - 1]) + "/" + Escape(p[|p| - 1])
  }

  function UnescapeAll(parts: seq<string>): (p: Path)
    ensures |p| == |parts| && forall i :: 0 <= i < |p| ==> p[i] == Unescape(parts[i])
  {
    seq(|parts|, i requires 0 <= i < |parts| => Unescape(parts[i]))
  }

  /** Pointer text decoded into tokens; `None` when it is not a pointer. */
  function Tokens(pointer: string): Option<Path> {
    if pointer != "" && pointer[0] != '/' then None
    else Some(UnescapeAll(Split(pointer, '/')[1..]))
  }

  lemma {:induction false} TokensOfPointer(p: Path)
    ensures Tokens(PointerOf(p)) == Some(p)
  {
    if p == [] {
    } else {
      var init, last := p[..|p| - 1], p[|p| - 1];
      TokensOfPointer(init);
      SplitPointer(PointerOf(init), last);
      UnescapeEscape(last);
      UnescapeSnoc(Split(PointerOf(init), '/')[1..], Escape(last));
      assert p == init + [last];
    }
  }

  lemma {:induction false} SplitPointer(before: string, token: string)
    ensures Split(before + "/" + Escape(token), '/')[1..] == Split(before, '/')[1..] + [Escape(token)]
  {
    var e, parts := Escape(token), Split(before, '/');
    ReplaceCharAbsent(ReplaceChar(token, '~', "~0"), '/', "~1");
    SplitWhole(e, '/');
    SplitAppend(before, '/', e);
    assert (parts + [e])[1..] == parts[1..] + [e];
  }

  lemma {:induction false} UnescapeSnoc(parts: seq<string>, part: string)
    ensures UnescapeAll(parts + [part]) == UnescapeAll(parts) + [Unescape(part)]
  {
  }

  /** A pointer is empty, or a slash and a token after a pointer; no other text
      is one. */
  lemma {:induction false} TokensIs(pointer: string, token: string)
    requires '/' !in token
    ensures Tokens("") == Some([])
    ensures pointer != "" && pointer[0] != '/' ==> Tokens(pointer) == None
    ensures Tokens(pointer).Some? ==> Tokens(pointer + "/" + token) == Some(Tokens(pointer).value + [Unescape(token)])
  {
    SplitWhole(token, '/');
    SplitAppend(pointer, '/', token);
    var parts := Split(pointer, '/');
    assert (parts + [token])[1..] == parts[1..] + [token];
    UnescapeSnoc(parts[1..], token);
    assert Split("", '/') == [""];
  }

  /** A token is decoded from the left: `~1` is a slash, `~0` a tilde, and any
      other character itself. */
  lemma {:induction false} UnescapeIs(c: char, rest: string)
    ensures Unescape("") == ""
    ensures Unescape("~1" + rest) == "/" + Unescape(rest) && Unescape("~0" + rest) == "~" + Unescape(rest)
    ensures c != '~' || rest == "" || rest[0] !in "01" ==> Unescape([c] + rest) == [c] + Unescape(rest)
  {
    var slashed := ReplacePair(rest, '~', '1', '/');
    var slash, tilde := "~1" + rest, "~0" + rest;
    assert slash[2..] == rest && tilde == ['~'] + (['0'] + rest);
    ReplacePairSkip('/', slashed, '~', '0', '~');
    ReplacePairSkip('~', ['0'] + rest, '~', '1', '/');
    ReplacePairSkip('0', rest, '~', '1', '/');
    assert (['~'] + (['0'] + slashed))[2..] == slashed;
    if c != '~' || rest == "" || rest[0] !in "01" {
      ReplacePairSkip(c, rest, '~', '1', '/');
      ReplacePairSkip(c, slashed, '~', '0', '~');
    }
  }

  /** `Value::pointer`. */
  function Resolve(v: Json, pointer: string): Option<Json> {
    match Tokens(pointer)
    case None => None
    case Some(p) => Lookup(v, p)
  }

  /** `Value::pointer_mut` followed by a write to the slot. */
  function ReplaceAt(v: Json, pointer: string, x: Json): Option<Json> {
    match Tokens(pointer)
    case None => None
    case Some(p) => Replace(v, p, x)
  }

  lemma {:induction false} ReplaceCharAppend(a: string, b: string, c: char, text: string)
    ensures ReplaceChar(a + b, c, text) == ReplaceChar(a, c, text) + ReplaceChar(b, c, text)
  {
    if a == "" {
      assert a + b == b;
    } else {
      assert (a + b)[1..] == a[1..] + b;
      ReplaceCharAppend(a[1..], b, c, text);
    }
  }

  /** Section 3 of RFC 6901, character by character. */
  lemma {:induction false} EscapeIs(a: string, c: char, b: string)
    ensures Escape("") == "" && Escape(a + [c] + b) == Escape(a) + Escape([c]) + Escape(b)
    ensures Escape([c]) == if c == '~' then "~0" else if c == '/' then "~1" else [c]
  {
    EscapeAppend(a + [c], b);
    EscapeAppend(a, [c]);
    assert [c][1..] == "";
    ReplaceCharSingle(c, '~', "~0");
    if c == '~' {
      ReplaceCharIdentity("~0", '/', "~1");
    } else {
      ReplaceCharSingle(c, '/', "~1");
    }
  }

  lemma {:induction false} ReplaceCharSingle(x: char, c: char, text: string)
    ensures ReplaceChar([x], c, text) == if x == c then text else [x]
  {
    assert [x][1..] == "";
  }

  lemma {:induction false} EscapeAppend(a: string, b: string)
    ensures Escape(a + b) == Escape(a) + Escape(b)
  {
    ReplaceCharAppend(a, b, '~', "~0");
    ReplaceCharAppend(ReplaceChar(a, '~', "~0"), ReplaceChar(b, '~', "~0"), '/', "~1");
  }
}
