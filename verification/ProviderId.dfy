/**
 The provider id of a Codex host instance
 (crates/pocox-codex/src/provider_launch.rs, `host_provider_id`).
 */
module ProviderId {
  import opened Text

  type Byte = b: int | 0 <= b < 256

  const PREFIX: string := "pcx_host"

  function HexByte(b: Byte): string { [HexDigit(b / 16, false), HexDigit(b % 16, false)] }

  function Hex(bytes: seq<Byte>): string {
    if bytes == [] then "" else Hex(bytes[..|bytes| - 1]) + HexByte(bytes[|bytes| - 1])
  }

  predicate Alphanumeric(c: char) { 'a' <= c <= 'z' || 'A' <= c <= 'Z' || '0' <= c <= '9' }

  function LowerAscii(c: char): char { if 'A' <= c <= 'Z' then 'a' + (c - 'A') else c }

  /** The generation's letters and digits, lower-cased. */
  function Generation(authority: string): string {
    if authority == "" then ""
    else
      Generation(authority[..|authority| - 1])
      + if Alphanumeric(authority[|authority| - 1]) then [LowerAscii(authority[|authority| - 1])] else []
  }

  function Id(instance: seq<Byte>, authority: string): string {
    PREFIX + "_" + Hex(instance) + "_" + Generation(authority)
  }

  /** `host_provider_id`. */
  method HostProviderId(instance: seq<Byte>, authority: string) returns (id: string)
    ensures id == Id(instance, authority)
  {
    id := PREFIX + "_";
    for i := 0 to |instance|
      invariant id == PREFIX + "_" + Hex(instance[..i])
    {
      assert instance[..i + 1][..i] == instance[..i];
      id := id + HexByte(instance[i]);
    }
    assert instance[..|instance|] == instance;
    id := id + "_";
    ghost var head := id;
    for i := 0 to |authority|
      invariant id == head + Generation(authority[..i])
    {
      assert authority[..i + 1][..i] == authority[..i];
      if Alphanumeric(authority[i]) {
        id := id + [LowerAscii(authority[i])];
      }
    }
    assert authority[..|authority|] == authority;
  }

  lemma {:induction false} HexPlain(bytes: seq<Byte>)
    ensures '_' !in Hex(bytes) && |Hex(bytes)| == 2 * |bytes|
  {
    if bytes == [] {
    } else {
      HexPlain(bytes[..|bytes| - 1]);
    }
  }

  lemma {:induction false} GenerationPlain(authority: string)
    ensures '_' !in Generation(authority)
  {
    if authority == "" {
    } else {
      GenerationPlain(authority[..|authority| - 1]);
    }
  }

  lemma {:induction false} HexByteInjective(a: Byte, b: Byte)
    requires HexByte(a) == HexByte(b)
    ensures a == b
  {
    assert HexByte(a)[0] == HexByte(b)[0] && HexByte(a)[1] == HexByte(b)[1];
    assert HexValue(HexByte(a)[0]) == Some(a / 16) && HexValue(HexByte(b)[0]) == Some(b / 16);
    assert HexValue(HexByte(a)[1]) == Some(a % 16) && HexValue(HexByte(b)[1]) == Some(b % 16);
  }

  lemma {:induction false} HexEnds(a: seq<Byte>)
    requires a != []
    ensures |Hex(a)| >= 2
    ensures Hex(a)[..|Hex(a)| - 2] == Hex(a[..|a| - 1]) && Hex(a)[|Hex(a)| - 2..] == HexByte(a[|a| - 1])
  {
  }

  /** Equal digits end in equal bytes. */
  lemma {:induction false} HexLast(a: seq<Byte>, b: seq<Byte>)
    requires Hex(a) == Hex(b) && a != [] && b != []
    ensures Hex(a[..|a| - 1]) == Hex(b[..|b| - 1]) && a[|a| - 1] == b[|b| - 1]
  {
    HexEnds(a);
    HexEnds(b);
    HexByteInjective(a[|a| - 1], b[|b| - 1]);
  }

  /** The bytes are determined by their digits. */
  lemma {:induction false} HexInjective(a: seq<Byte>, b: seq<Byte>)
    requires Hex(a) == Hex(b)
    ensures a == b
    decreases |a|
  {
    HexPlain(a);
    HexPlain(b);
    if a == [] {
    } else {
      var i := |a| - 1;
      HexLast(a, b);
      HexInjective(a[..i], b[..i]);
      assert a == a[..i] + [a[i]] && b == b[..i] + [b[i]];
    }
  }

  function Tail(instance: seq<Byte>, authority: string): string {
    Hex(instance) + ['_'] + Generation(authority)
  }

  lemma {:induction false} TailParts(instance: seq<Byte>, authority: string)
    ensures Split(Tail(instance, authority), '_') == [Hex(instance), Generation(authority)]
  {
    HexPlain(instance);
    GenerationPlain(authority);
    SplitWhole(Generation(authority), '_');
    SplitWhole(Hex(instance), '_');
    SplitAppend(Hex(instance), '_', Generation(authority));
  }

  lemma {:induction false} IdTail(instance: seq<Byte>, authority: string)
    ensures |Id(instance, authority)| > |PREFIX|
    ensures Id(instance, authority)[|PREFIX| + 1..] == Tail(instance, authority)
  {
  }

  /** Two ids are equal exactly for one instance under one generation: an id
      determines its instance. */
  lemma {:induction false} IdIff(a: seq<Byte>, x: string, b: seq<Byte>, y: string)
    ensures Id(a, x) == Id(b, y) <==> a == b && Generation(x) == Generation(y)
  {
    if Id(a, x) == Id(b, y) {
      IdTail(a, x);
      IdTail(b, y);
      TailParts(a, x);
      TailParts(b, y);
      var parts := Split(Tail(a, x), '_');
      assert parts[0] == Hex(a) && parts[0] == Hex(b) && parts[1] == Generation(x) && parts[1] == Generation(y);
      HexInjective(a, b);
    }
  }

  // ---------- the id in print ----------

  lemma {:induction false} GenerationAppend(x: string, y: string)
    ensures Generation(x + y) == Generation(x) + Generation(y)
  {
    if y == "" {
      assert x + y == x;
    } else {
      assert (x + y)[..|x + y| - 1] == x + y[..|y| - 1];
      GenerationAppend(x, y[..|y| - 1]);
    }
  }

  /** Character by character: letters and digits stay, letters lower-cased, and
      nothing else does. */
  lemma {:induction false} GenerationIs(x: string, c: char, y: string)
    ensures Generation("") == "" && Generation(x + [c] + y) == Generation(x) + Generation([c]) + Generation(y)
    ensures Generation([c]) == if 'a' <= c <= 'z' || '0' <= c <= '9' then [c]
                               else if 'A' <= c <= 'Z' then ['a' + (c - 'A')] else ""
  {
    GenerationAppend(x + [c], y);
    GenerationAppend(x, [c]);
    assert [c][..0] == "";
  }

  const DIGITS: string := "0123456789abcdef"

  /** Two lower-case hexadecimal digits for each byte, in order. */
  lemma {:induction false} HexIs(bytes: seq<Byte>, i: nat)
    requires i < |bytes|
    ensures |Hex(bytes)| == 2 * |bytes|
    ensures Hex(bytes)[2 * i] == DIGITS[bytes[i] / 16] && Hex(bytes)[2 * i + 1] == DIGITS[bytes[i] % 16]
  {
    var n := |bytes| - 1;
    HexPlain(bytes);
    HexPlain(bytes[..n]);
    if i < n {
      HexIs(bytes[..n], i);
    } else {
      DigitIs(bytes[i] / 16);
      DigitIs(bytes[i] % 16);
    }
  }

  lemma {:induction false} DigitIs(n: nat)
    requires n < 16
    ensures HexDigit(n, false) == DIGITS[n]
  {
  }

  lemma {:induction false} IdPrints(instance: seq<Byte>, authority: string)
    ensures Id(instance, authority) == "pcx_host_" + Hex(instance) + "_" + Generation(authority)
  {
  }
}
