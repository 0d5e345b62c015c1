/**
 The bounded line splitter (crates/pocox-core/src/redact.rs, `Lines`) and the
 keyed-output filter over it (crates/pocox-codex/src/output.rs, `notices`),
 checked against the whole stream.
 */
module LineSplitter {
  import opened Text

  type Byte = b: int | 0 <= b < 256

  const NEWLINE: Byte := 10

  /** A complete line, or an over-long one of which this many bytes were seen. */
  datatype Piece = Line(bytes: seq<Byte>) | Withheld(count: nat)

  // ---------- the whole-stream specification ----------

  /** How a line of the stream may be reported. */
  predicate Shows(p: Piece, line: seq<Byte>, cap: nat) {
    if |line| <= cap then p == Line(line) else p.Withheld? && cap < p.count <= |line|
  }

  /** The lines due: every ended one, and the open one once it is over-long. */
  function Due(stream: seq<Byte>, cap: nat): seq<seq<Byte>> {
    if |LastPiece(stream, NEWLINE)| > cap then Split(stream, NEWLINE) else EndedPieces(stream, NEWLINE)
  }

  predicate Reports(pieces: seq<Piece>, lines: seq<seq<Byte>>, cap: nat) {
    |pieces| == |lines| && forall i :: 0 <= i < |pieces| ==> Shows(pieces[i], lines[i], cap)
  }

  /** Two reports of one stream differ at most in the counts withheld, which lie
      above the cap. */
  lemma {:induction false} ReportsAgree(p: seq<Piece>, q: seq<Piece>, lines: seq<seq<Byte>>, cap: nat)
    requires Reports(p, lines, cap) && Reports(q, lines, cap)
    ensures |p| == |q|
    ensures forall i :: 0 <= i < |p| ==> (p[i].Line? <==> q[i].Line?) && (p[i].Line? ==> p[i] == q[i])
    ensures forall i :: 0 <= i < |p| ==> if |lines[i]| <= cap then p[i] == Line(lines[i])
                                         else p[i].Withheld? && cap < p[i].count <= |lines[i]|
  {
    forall i | 0 <= i < |p| ensures (p[i].Line? <==> q[i].Line?) && (p[i].Line? ==> p[i] == q[i]) {
      assert Shows(p[i], lines[i], cap) && Shows(q[i], lines[i], cap);
    }
  }

  lemma {:induction false} SplitIsEndedAndLast(stream: seq<Byte>)
    ensures Split(stream, NEWLINE) == EndedPieces(stream, NEWLINE) + [LastPiece(stream, NEWLINE)]
  {
  }

  /** More bytes of the open line, no newline among them. */
  lemma {:induction false} ExtendReport(pieces: seq<Piece>, stream: seq<Byte>, more: seq<Byte>, cap: nat)
    requires Reports(pieces, Due(stream, cap), cap) && NEWLINE !in more
    ensures var tail, longer := LastPiece(stream, NEWLINE), LastPiece(stream + more, NEWLINE);
            && longer == tail + more
            && (|tail| > cap || |longer| <= cap ==> Reports(pieces, Due(stream + more, cap), cap))
            && (|tail| <= cap < |longer| ==> Reports(pieces + [Withheld(|longer|)], Due(stream + more, cap), cap))
  {
    SplitExtend(stream, NEWLINE, more);
    SplitIsEndedAndLast(stream);
    SplitIsEndedAndLast(stream + more);
    var tail, longer := LastPiece(stream, NEWLINE), LastPiece(stream + more, NEWLINE);
    if |tail| > cap {
      assert Shows(pieces[|pieces| - 1], tail, cap);
      assert Shows(pieces[|pieces| - 1], longer, cap);
    }
  }

  /** The newline that ends the open line. */
  lemma {:induction false} EndReport(pieces: seq<Piece>, stream: seq<Byte>, cap: nat)
    requires Reports(pieces, Due(stream, cap), cap)
    ensures var tail := LastPiece(stream, NEWLINE);
            && LastPiece(stream + [NEWLINE], NEWLINE) == []
            && (|tail| > cap ==> Reports(pieces, Due(stream + [NEWLINE], cap), cap))
            && (|tail| <= cap ==> Reports(pieces + [Line(tail)], Due(stream + [NEWLINE], cap), cap))
  {
    SplitEnd(stream, NEWLINE);
    SplitIsEndedAndLast(stream);
  }

  // ---------- the splitter ----------

  /** `position` of the first newline. */
  function NewlineAt(bytes: seq<Byte>): (i: Option<nat>)
    ensures i.None? ==> NEWLINE !in bytes
    ensures i.Some? ==> i.value < |bytes| && bytes[i.value] == NEWLINE && NEWLINE !in bytes[..i.value]
  {
    if bytes == [] then None
    else if bytes[0] == NEWLINE then Some(0)
    else match NewlineAt(bytes[1..])
         case None => None
         case Some(i) =>
           assert bytes[..i + 1] == [bytes[0]] + bytes[1..][..i];
           Some(i + 1)
  }

  /** The splitter's state is a function of the stream, however chunked. */
  ghost predicate Tracks(carry: seq<Byte>, discarding: bool, fed: seq<Byte>, emitted: seq<Piece>, cap: nat) {
    var tail := LastPiece(fed, NEWLINE);
    && discarding == (|tail| > cap)
    && carry == (if discarding then [] else tail)
    && Reports(emitted, Due(fed, cap), cap)
  }

  lemma {:induction false} TrackOpen(carry: seq<Byte>, discarding: bool, fed: seq<Byte>, emitted: seq<Piece>,
                                     cap: nat,
                                     more: seq<Byte>)
    requires Tracks(carry, discarding, fed, emitted, cap) && NEWLINE !in more
    ensures discarding ==> Tracks([], true, fed + more, emitted, cap)
    ensures !discarding && |carry + more| <= cap ==> Tracks(carry + more, false, fed + more, emitted, cap)
    ensures !discarding && |carry + more| > cap ==>
              Tracks([], true, fed + more, emitted + [Withheld(|carry + more|)], cap)
  {
    ExtendReport(emitted, fed, more, cap);
  }

  /** How the splitter reports a line it has whole. */
  function PieceOf(line: seq<Byte>, cap: nat): Piece { if |line| > cap then Withheld(|line|) else Line(line) }

  lemma {:induction false} TrackEnd(carry: seq<Byte>, discarding: bool, fed: seq<Byte>, emitted: seq<Piece>,
                                    cap: nat,
                                    head: seq<Byte>)
    requires Tracks(carry, discarding, fed, emitted, cap) && NEWLINE !in head
    ensures Tracks([], false, fed + head + [NEWLINE],
                   if discarding then emitted else emitted + [PieceOf(carry + head, cap)], cap)
  {
    ExtendReport(emitted, fed, head, cap);
    var line := carry + head;
    if !discarding && |line| > cap {
      EndReport(emitted + [Withheld(|line|)], fed + head, cap);
    } else {
      EndReport(emitted, fed + head, cap);
    }
  }

  lemma {:induction false} Regroup(fed: seq<Byte>, bytes: seq<Byte>, nl: nat)
    requires nl < |bytes| && bytes[nl] == NEWLINE
    ensures fed + bytes[..nl] + [NEWLINE] + bytes[nl + 1..] == fed + bytes
  {
    assert bytes == bytes[..nl] + [NEWLINE] + bytes[nl + 1..];
  }

  lemma {:induction false} Appended(a: seq<Piece>, b: seq<Piece>, c: seq<Piece>)
    ensures a + b + c == a + (b + c)
  {
  }

  class Lines {
    const cap: nat
    var carry: seq<Byte>
    var discarding: bool
    /** Bytes fed and pieces emitted since the last reset. */
    ghost var fed: seq<Byte>
    ghost var emitted: seq<Piece>

    ghost predicate Valid()
      reads this
    {
      Tracks(carry, discarding, fed, emitted, cap)
    }

    constructor (cap: nat)
      ensures Valid() && this.cap == cap && fed == [] && emitted == []
    {
      this.cap, carry, discarding := cap, [], false;
      fed, emitted := [], [];
    }

    method Reset()
      modifies this
      ensures Valid() && fed == [] && emitted == []
    {
      carry, discarding, fed, emitted := [], false, [], [];
    }

    /** Bytes with no newline: they stay, unless the line is now over-long. */
    method TakeOpen(bytes: seq<Byte>) returns (out: seq<Piece>)
      requires Valid() && NEWLINE !in bytes
      modifies this
      ensures Valid() && fed == old(fed) + bytes && emitted == old(emitted) + out
    {
      TrackOpen(carry, discarding, fed, emitted, cap, bytes);
      out := [];
      fed := fed + bytes;
      if !discarding {
        carry := carry + bytes;
        if |carry| > cap {
          out := [Withheld(|carry|)];
          carry, discarding := [], true;
        }
      }
      emitted := emitted + out;
    }

    /** The rest of a line, whose newline follows. */
    method TakeEnded(head: seq<Byte>) returns (out: seq<Piece>)
      requires Valid() && NEWLINE !in head
      modifies this
      ensures Valid() && fed == old(fed) + head + [NEWLINE] && emitted == old(emitted) + out
    {
      TrackEnd(carry, discarding, fed, emitted, cap, head);
      fed := fed + head + [NEWLINE];
      if discarding {
        discarding := false;
        out := [];
      } else {
        var line := if carry == [] then head else carry + head;
        assert line == carry + head;
        out := [PieceOf(line, cap)];
        carry := [];
      }
      emitted := emitted + out;
    }

    /** `feed`: a chunk, returning every piece it completes. */
    method Feed(chunk: seq<Byte>) returns (out: seq<Piece>)
      requires Valid()
      modifies this
      ensures Valid() && fed == old(fed) + chunk && emitted == old(emitted) + out
    {
      var bytes := chunk;
      out := [];
      ghost var total := fed + chunk;
      while bytes != []
        invariant Valid() && emitted == old(emitted) + out
        invariant fed + bytes == total
        decreases |bytes|
      {
        var nl := NewlineAt(bytes);
        if nl.None? {
          var piece := TakeOpen(bytes);
          Appended(old(emitted), out, piece);
          out := out + piece;
          return;
        }
        Regroup(fed, bytes, nl.value);
        var pieces := TakeEnded(bytes[..nl.value]);
        Appended(old(emitted), out, pieces);
        out := out + pieces;
        bytes := bytes[nl.value + 1..];
      }
    }
  }

  // ---------- the keyed-output filter ----------

  /** What `read` may answer; an empty read is the end. */
  datatype ReadResult = Data(bytes: seq<Byte>) | Interrupted | ReadError

  /** The bytes read up to the end, an error, or the last result given. */
  function Input(results: seq<ReadResult>): seq<Byte> {
    if results == [] then []
    else match results[0]
         case Data(bytes) => if bytes == [] then [] else bytes + Input(results[1..])
         case Interrupted => Input(results[1..])
         case ReadError => []
  }

  /** How many of the lines within the cap a predicate picks. */
  function Picked(lines: seq<seq<Byte>>, cap: nat, mentions: seq<Byte> -> bool): nat {
    if lines == [] then 0
    else Picked(lines[..|lines| - 1], cap, mentions)
         + if |lines[|lines| - 1]| <= cap && mentions(lines[|lines| - 1]) then 1 else 0
  }

  /** The same count over emitted pieces. */
  function PickedPieces(pieces: seq<Piece>, mentions: seq<Byte> -> bool): nat {
    if pieces == [] then 0
    else PickedPieces(pieces[..|pieces| - 1], mentions)
         + if pieces[|pieces| - 1].Line? && mentions(pieces[|pieces| - 1].bytes) then 1 else 0
  }

  lemma {:induction false} PickedAgree(pieces: seq<Piece>, lines: seq<seq<Byte>>, cap: nat,
                                       mentions: seq<Byte> -> bool)
    requires Reports(pieces, lines, cap)
    ensures PickedPieces(pieces, mentions) == Picked(lines, cap, mentions)
  {
    if pieces == [] {
    } else {
      var n := |pieces| - 1;
      assert Shows(pieces[n], lines[n], cap);
      PickedAgree(pieces[..n], lines[..n], cap, mentions);
    }
  }

  lemma {:induction false} PickedPiecesAppend(a: seq<Piece>, b: seq<Piece>, mentions: seq<Byte> -> bool)
    ensures PickedPieces(a + b, mentions) == PickedPieces(a, mentions) + PickedPieces(b, mentions)
  {
    if b == [] {
      assert a + b == a;
    } else {
      assert (a + b)[..|a + b| - 1] == a + b[..|b| - 1];
      PickedPiecesAppend(a, b[..|b| - 1], mentions);
    }
  }

  /** The open line is over-long when it is due, so it is never picked. */
  lemma {:induction false} PickedDue(stream: seq<Byte>, cap: nat, mentions: seq<Byte> -> bool)
    ensures Picked(Due(stream, cap), cap, mentions) == Picked(EndedPieces(stream, NEWLINE), cap, mentions)
  {
    SplitIsEndedAndLast(stream);
    var parts := Split(stream, NEWLINE);
    assert parts[..|parts| - 1] == EndedPieces(stream, NEWLINE);
  }

  /** The callback on the pieces of one chunk. */
  method EmitNotices(pieces: seq<Piece>, mentions: seq<Byte> -> bool, notice: string) returns (out: seq<string>)
    ensures |out| == PickedPieces(pieces, mentions)
    ensures forall i :: 0 <= i < |out| ==> out[i] == notice
  {
    out := [];
    for j := 0 to |pieces|
      invariant |out| == PickedPieces(pieces[..j], mentions)
      invariant forall i :: 0 <= i < |out| ==> out[i] == notice
    {
      assert pieces[..j + 1][..j] == pieces[..j];
      if pieces[j].Line? && mentions(pieces[j].bytes) {
        out := out + [notice];
      }
    }
    assert pieces[..|pieces|] == pieces;
  }

  /** One read: the bytes so far and those still to come make up the input. */
  lemma {:induction false} ReadOne(results: seq<ReadResult>, i: nat, fed: seq<Byte>)
    requires i < |results| && Input(results) == fed + Input(results[i..])
    ensures var r := results[i];
            Input(results) == match r
                              case Interrupted => fed + Input(results[i + 1..])
                              case ReadError => fed
                              case Data(bytes) =>
                                if bytes == [] then fed else fed + bytes + Input(results[i + 1..])
  {
    assert results[i..][1..] == results[i + 1..];
    if results[i].Data? {
      assert fed + (results[i].bytes + Input(results[i + 1..])) == fed + results[i].bytes + Input(results[i + 1..]);
    }
  }

  /** What was emitted picks the ended lines of the stream. */
  lemma {:induction false} EmittedPicks(carry: seq<Byte>, discarding: bool, fed: seq<Byte>, emitted: seq<Piece>,
                                        cap: nat,
                                        mentions: seq<Byte> -> bool)
    requires Tracks(carry, discarding, fed, emitted, cap)
    ensures PickedPieces(emitted, mentions) == Picked(EndedPieces(fed, NEWLINE), cap, mentions)
  {
    PickedAgree(emitted, Due(fed, cap), cap, mentions);
    PickedDue(fed, cap, mentions);
  }

  /** `notices`: the fixed notice once for each ended line within the cap that
      reports the failure, a function of the bytes read and not of the reads. */
  method Notices(results: seq<ReadResult>, cap: nat, mentions: seq<Byte> -> bool, notice: string)
    returns (out: seq<string>)
    ensures |out| == Picked(EndedPieces(Input(results), NEWLINE), cap, mentions)
    ensures forall i :: 0 <= i < |out| ==> out[i] == notice
  {
    var lines := new Lines(cap);
    out := [];
    var i := 0;
    while i < |results|
      invariant i <= |results| && lines.Valid() && fresh(lines) && lines.cap == cap
      invariant Input(results) == lines.fed + Input(results[i..])
      invariant |out| == PickedPieces(lines.emitted, mentions)
      invariant forall k :: 0 <= k < |out| ==> out[k] == notice
    {
      ReadOne(results, i, lines.fed);
      var result := results[i];
      i := i + 1;
      if result.Interrupted? {
        continue;
      }
      if result.ReadError? || result.bytes == [] {
        break;
      }
      ghost var before := lines.emitted;
      var pieces := lines.Feed(result.bytes);
      var more := EmitNotices(pieces, mentions, notice);
      PickedPiecesAppend(before, pieces, mentions);
      out := out + more;
    }
    assert Input(results) == lines.fed;
    EmittedPicks(lines.carry, lines.discarding, lines.fed, lines.emitted, cap, mentions);
  }

  // ---------- what is counted, and of what ----------

  /** The bytes read: those of every read in order, interruptions skipped, up to
      the first empty read or error. */
  lemma {:induction false} InputIs(before: seq<ReadResult>, bytes: seq<Byte>, after: seq<ReadResult>)
    requires forall i :: 0 <= i < |before| ==> before[i].Interrupted? || (before[i].Data? && before[i].bytes != [])
    ensures Input(before + [Data(bytes)] + after) == Input(before) + if bytes == [] then [] else bytes + Input(after)
    ensures Input(before + [Interrupted] + after) == Input(before) + Input(after)
    ensures Input(before + [ReadError] + after) == Input(before)
    ensures Input([]) == []
  {
    InputAfter(before, [Data(bytes)] + after);
    InputAfter(before, [Interrupted] + after);
    InputAfter(before, [ReadError] + after);
    assert before + [Data(bytes)] + after == before + ([Data(bytes)] + after);
    assert before + [Interrupted] + after == before + ([Interrupted] + after);
    assert before + [ReadError] + after == before + ([ReadError] + after);
    assert ([Data(bytes)] + after)[1..] == after && ([Interrupted] + after)[1..] == after;
  }

  lemma {:induction false} InputAfter(before: seq<ReadResult>, rest: seq<ReadResult>)
    requires forall i :: 0 <= i < |before| ==> before[i].Interrupted? || (before[i].Data? && before[i].bytes != [])
    ensures Input(before + rest) == Input(before) + Input(rest)
  {
    if before == [] {
      assert before + rest == rest;
    } else {
      assert (before + rest)[1..] == before[1..] + rest;
      InputAfter(before[1..], rest);
    }
  }

  /** The lines counted are those within the cap that the predicate picks. */
  lemma {:induction false} PickedIs(lines: seq<seq<Byte>>, cap: nat, mentions: seq<Byte> -> bool)
    ensures Picked(lines, cap, mentions)
         == |set i | 0 <= i < |lines| && |lines[i]| <= cap && mentions(lines[i])|
  {
    if lines == [] {
    } else {
      var n := |lines| - 1;
      var init := lines[..n];
      PickedIs(init, cap, mentions);
      var all := set i | 0 <= i < |lines| && |lines[i]| <= cap && mentions(lines[i]);
      var some := set i | 0 <= i < |init| && |init[i]| <= cap && mentions(init[i]);
      var more := if |lines[n]| <= cap && mentions(lines[n]) then {n} else {};
      assert all == some + more && some !! more;
    }
  }

  /** Byte 10 ends a line, and no other byte does. */
  lemma {:induction false} LinesEnd(line: seq<Byte>, rest: seq<Byte>)
    requires 10 !in line
    ensures Split(line, NEWLINE) == [line] && Split(line + [10] + rest, NEWLINE) == [line] + Split(rest, NEWLINE)
  {
    SplitWhole(line, NEWLINE);
    SplitAppend(line, NEWLINE, rest);
  }
}
