/**
 The fail-closed `lsof` listing parser (crates/pocox-core/src/listener.rs),
 checked against a grouping of the listing's lines into records.
 */
module LsofListing {
  import opened Text

  // ---------- addresses ----------

  /** An IP address as its number, `Ipv4Addr::to_bits` and `Ipv6Addr::to_bits`. */
  datatype Ip = V4(bits: nat) | V6(bits: nat)

  /** An IPv4-mapped IPv6 address (`::ffff:0:0/96`) is its IPv4 address. */
  function Canonical(ip: Ip): Ip {
    if ip.V6? && ip.bits / 0x1_0000_0000 == 0xFFFF then V4(ip.bits % 0x1_0000_0000) else ip
  }

  predicate TakesFor(bound: Ip, requested: Ip) {
    match (bound, requested)
    case (V4(b), V4(r)) => b == r || b == 0 || r == 0
    case (V6(b), V6(r)) => b == r || b == 0 || r == 0
    case (V6(b), V4(_)) => b == 0
    case (V4(_), V6(_)) => false
  }

  /** `applies`: some requested address is served by a listener bound there. */
  predicate Applies(bound: Ip, requested: seq<Ip>) {
    exists i :: 0 <= i < |requested| && TakesFor(Canonical(bound), Canonical(requested[i]))
  }

  /** The IPv4-mapped form of an IPv4 address. */
  function Mapped(bits: nat): Ip { V6(0xFFFF * 0x1_0000_0000 + bits) }

  /** An IPv4 address and its mapped form are one, bound or requested, and the
      unspecified IPv6 address takes every connection. */
  lemma {:induction false} MappedIsSame(bits: nat, ip: Ip, requested: seq<Ip>)
    requires bits < 0x1_0000_0000
    ensures Applies(V4(bits), requested) <==> Applies(Mapped(bits), requested)
    ensures Applies(ip, [V4(bits)]) <==> Applies(ip, [Mapped(bits)])
    ensures ip in requested ==> Applies(ip, requested) && Applies(V6(0), requested)
  {
    assert Canonical(Mapped(bits)) == V4(bits);
    assert [V4(bits)][0] == V4(bits) && [Mapped(bits)][0] == Mapped(bits);
    if ip in requested {
      var i :| 0 <= i < |requested| && requested[i] == ip;
      assert TakesFor(Canonical(ip), Canonical(requested[i]));
      assert TakesFor(Canonical(V6(0)), Canonical(requested[i]));
    }
  }

  /** What is asked of the listing; `ip` is the literal parser of the standard library. */
  datatype Query = Query(ip: string -> Option<Ip>, requested: seq<Ip>, port: nat)

  // ---------- text ----------

  function IndexOf(s: string, c: char): (i: Option<nat>)
    ensures i.Some? ==> i.value < |s| && s[i.value] == c && c !in s[..i.value]
    ensures i.None? ==> c !in s
  {
    if s == "" then None
    else if s[0] == c then Some(0)
    else match IndexOf(s[1..], c)
         case None => None
         case Some(i) =>
           assert s[..i + 1] == [s[0]] + s[1..][..i];
           Some(i + 1)
  }

  function LastIndexOf(s: string, c: char): (i: Option<nat>)
    ensures i.Some? ==> i.value < |s| && s[i.value] == c && c !in s[i.value + 1..]
    ensures i.None? ==> c !in s
  {
    if s == "" then None
    else if s[|s| - 1] == c then Some(|s| - 1)
    else LastIndexOf(s[..|s| - 1], c)
  }

  /** `str::parse` for an unsigned type of the given bound: an optional `+`
      and digits. */
  function ParseUnsigned(s: string, bound: nat): (n: Option<nat>)
    ensures n.Some? ==> n.value < bound
  {
    var digits := if s != "" && s[0] == '+' then s[1..] else s;
    match ParseDigits(digits)
    case None => None
    case Some(n) => if n < bound then Some(n) else None
  }

  lemma {:induction false} ParseUnsignedDecimal(n: nat, bound: nat)
    requires n < bound
    ensures ParseUnsigned(Decimal(n), bound) == Some(n)
  {
    ParseDecimal(n);
  }

  /** The numeral of `n` after so many zeros. */
  function Padded(k: nat, n: nat): (s: string)
    ensures s != "" && s[0] != '+'
  {
    if k == 0 then Decimal(n) else ['0'] + Padded(k - 1, n)
  }

  lemma {:induction false} LeadingZero(s: string)
    requires s != ""
    ensures ParseDigits(['0'] + s) == ParseDigits(s)
    decreases |s|
  {
    var t := ['0'] + s;
    assert t[|t| - 1] == s[|s| - 1] && t[..|t| - 1] == ['0'] + s[..|s| - 1];
    if |s| == 1 {
      assert t[..1] == ['0'] && s == [s[0]];
    } else {
      LeadingZero(s[..|s| - 1]);
    }
  }

  lemma {:induction false} PaddedParses(k: nat, n: nat)
    ensures ParseDigits(Padded(k, n)) == Some(n)
  {
    if k == 0 {
      ParseDecimal(n);
    } else {
      PaddedParses(k - 1, n);
      LeadingZero(Padded(k - 1, n));
    }
  }

  /** Digits with a value are its numeral after some zeros. */
  lemma {:induction false} ParsedIsPadded(s: string) returns (k: nat)
    requires ParseDigits(s).Some?
    ensures s == Padded(k, ParseDigits(s).value)
    decreases |s|
  {
    if |s| == 1 || s[0] != '0' {
      k := 0;
      DecimalParse(s);
    } else {
      assert s == ['0'] + s[1..];
      LeadingZero(s[1..]);
      var less := ParsedIsPadded(s[1..]);
      k := less + 1;
    }
  }

  /** The numerals read as `n`: an optional plus, zeros, and its digits. */
  ghost predicate Numeral(s: string, n: nat) {
    exists k: nat :: s == Padded(k, n) || s == ['+'] + Padded(k, n)
  }

  /** A number is read exactly from its own numerals, and only within its type. */
  lemma {:induction false} ParseUnsignedIff(s: string, n: nat, bound: nat)
    ensures ParseUnsigned(s, bound) == Some(n) <==> Numeral(s, n) && n < bound
  {
    var digits := if s != "" && s[0] == '+' then s[1..] else s;
    if ParseUnsigned(s, bound) == Some(n) {
      var k := ParsedIsPadded(digits);
      assert digits == Padded(k, n);
      assert s == digits || s == ['+'] + digits;
    }
    if Numeral(s, n) {
      var k: nat :| s == Padded(k, n) || s == ['+'] + Padded(k, n);
      PaddedParses(k, n);
      assert digits == Padded(k, n);
    }
  }

  const U32: nat := 0x1_0000_0000
  const U16: nat := 0x1_0000

  /** `listed`: the address and the zone of a literal, brackets removed. */
  function Listed(text: string, q: Query): Option<(Ip, Option<string>)> {
    var inner := if |text| >= 2 && text[0] == '[' && text[|text| - 1] == ']' then text[1..|text| - 1] else text;
    var percent := IndexOf(inner, '%');
    var literal := if percent.None? then inner else inner[..percent.value];
    var zone := if percent.None? then None else Some(inner[percent.value + 1..]);
    match q.ip(literal)
    case None => None
    case Some(ip) => Some((ip, zone))
  }

  predicate Named(ip: Ip, requested: seq<Ip>) {
    exists i :: 0 <= i < |requested| && Canonical(requested[i]) == Canonical(ip)
  }

  /** `listed_applies`. */
  function ListedApplies(text: string, q: Query): Option<bool> {
    match Listed(text, q)
    case None => None
    case Some((ip, zone)) =>
      if zone.Some? && Named(ip, q.requested) then None else Some(Applies(ip, q.requested))
  }

  /** Whether a file's socket applies; `None` when that cannot be read. */
  function ReadFile(family: string, name: string, q: Query): Option<bool> {
    var colon := LastIndexOf(name, ':');
    if colon.None? then None
    else
      var host := name[..colon.value];
      match ParseUnsigned(name[colon.value + 1..], U16)
      case None => None
      case Some(port) =>
        if port != q.port then Some(false)
        else if host == "*" then
          if family == "IPv4" then Some(Applies(V4(0), q.requested))
          else if family == "IPv6" then Some(Applies(V6(0), q.requested))
          else None
        else ListedApplies(host, q)
  }

  lemma {:induction false} FirstIndex(a: string, c: char, b: string)
    requires c !in a
    ensures IndexOf(a + [c] + b, c) == Some(|a|)
  {
    if a == "" {
    } else {
      assert (a + [c] + b)[1..] == a[1..] + [c] + b && (a + [c] + b)[0] == a[0];
      FirstIndex(a[1..], c, b);
    }
  }

  lemma {:induction false} LastIndex(a: string, c: char, b: string)
    requires c !in b
    ensures LastIndexOf(a + [c] + b, c) == Some(|a|)
  {
    var s := a + [c] + b;
    if b == "" {
    } else {
      assert s[..|s| - 1] == a + [c] + b[..|b| - 1] && s[|s| - 1] == b[|b| - 1];
      LastIndex(a, c, b[..|b| - 1]);
    }
  }

  /** A host in brackets that begin and end it is read without them. */
  predicate Bracketed(host: string) { |host| >= 2 && host[0] == '[' && host[|host| - 1] == ']' }

  lemma {:induction false} ListedScoped(host: string, address: string, zone: string, q: Query)
    requires '%' !in address && q.ip(address).Some?
    requires host == "[" + address + "%" + zone + "]" || (host == address + "%" + zone && !Bracketed(host))
    ensures Listed(host, q) == Some((q.ip(address).value, Some(zone)))
  {
    var inner := address + "%" + zone;
    assert Bracketed(host) ==> host[1..|host| - 1] == inner;
    FirstIndex(address, '%', zone);
    assert inner[..|address|] == address && inner[|address| + 1..] == zone;
  }

  lemma {:induction false} HostOnPort(family: string, host: string, q: Query)
    requires host != "*" && q.port < U16
    ensures ReadFile(family, host + ":" + Decimal(q.port), q) == ListedApplies(host, q)
  {
    var port := Decimal(q.port);
    var name := host + [':'] + port;
    ParseUnsignedDecimal(q.port, U16);
    LastIndex(host, ':', port);
    assert name[..|host|] == host && name[|host| + 1..] == port;
  }

  /** An address with a zone that names a requested address is never read, in
      brackets, as IPv6 is listed, or bare. */
  lemma {:induction false} ScopedRefused(family: string, address: string, zone: string, q: Query)
    requires '%' !in address && q.port < U16
    requires q.ip(address).Some? && Named(q.ip(address).value, q.requested)
    ensures ReadFile(family, "[" + address + "%" + zone + "]:" + Decimal(q.port), q).None?
    ensures !Bracketed(address + "%" + zone) ==>
              ReadFile(family, address + "%" + zone + ":" + Decimal(q.port), q).None?
  {
    var bare, wrapped := address + "%" + zone, "[" + address + "%" + zone + "]";
    assert wrapped[0] == '[' && bare[|address|] == '%';
    ListedScoped(wrapped, address, zone, q);
    HostOnPort(family, wrapped, q);
    assert wrapped + ":" + Decimal(q.port) == "[" + address + "%" + zone + "]:" + Decimal(q.port);
    if !Bracketed(bare) {
      ListedScoped(bare, address, zone, q);
      HostOnPort(family, bare, q);
    }
  }

  // ---------- records ----------

  datatype FileRecord = FileRecord(descriptor: string, fields: seq<string>)
  datatype ProcessRecord = ProcessRecord(pid: string, notes: seq<string>, files: seq<FileRecord>)
  /** A listing's lines grouped: those before the first process, then each
      process with the lines before its first file, and each file's lines. */
  datatype Listing = Listing(preamble: seq<string>, processes: seq<ProcessRecord>)

  predicate Tagged(line: string, tag: char) { line != "" && line[0] == tag }

  /** A line: its tag and its value. */
  function Marked(tag: char, value: string): string { [tag] + value }

  function FileLines(f: FileRecord): seq<string> { [Marked('f', f.descriptor)] + f.fields }

  function FilesLines(files: seq<FileRecord>): seq<string> {
    if files == [] then [] else FilesLines(files[..|files| - 1]) + FileLines(files[|files| - 1])
  }

  function ProcessLines(p: ProcessRecord): seq<string> { [Marked('p', p.pid)] + p.notes + FilesLines(p.files) }

  function ProcessesLines(ps: seq<ProcessRecord>): seq<string> {
    if ps == [] then [] else ProcessesLines(ps[..|ps| - 1]) + ProcessLines(ps[|ps| - 1])
  }

  /** The lines of a listing, as printed. */
  function ListingLines(l: Listing): seq<string> { l.preamble + ProcessesLines(l.processes) }

  /** One more line. */
  function WithLine(l: Listing, line: string): Listing {
    var ps, n := l.processes, |l.processes| - 1;
    if Tagged(line, 'p') then l.(processes := ps + [ProcessRecord(line[1..], [], [])])
    else if n < 0 then l.(preamble := l.preamble + [line])
    else l.(processes := ps[..n] + [ProcessWithLine(ps[n], line)])
  }

  function ProcessWithLine(p: ProcessRecord, line: string): ProcessRecord {
    var m := |p.files| - 1;
    if Tagged(line, 'f') then p.(files := p.files + [FileRecord(line[1..], [])])
    else if m < 0 then p.(notes := p.notes + [line])
    else p.(files := p.files[..m] + [p.files[m].(fields := p.files[m].fields + [line])])
  }

  /** The records of a listing's lines. */
  function Grouped(lines: seq<string>): Listing {
    if lines == [] then Listing([], []) else WithLine(Grouped(lines[..|lines| - 1]), lines[|lines| - 1])
  }

  lemma {:induction false} Regrouped(a: seq<string>, b: seq<string>, c: seq<string>)
    ensures a + (b + c) == a + b + c
  {
  }

  lemma {:induction false} FilesLinesSnoc(files: seq<FileRecord>, f: FileRecord)
    ensures FilesLines(files + [f]) == FilesLines(files) + FileLines(f)
  {
    assert (files + [f])[..|files|] == files;
  }

  lemma {:induction false} ProcessesLinesSnoc(ps: seq<ProcessRecord>, p: ProcessRecord)
    ensures ProcessesLines(ps + [p]) == ProcessesLines(ps) + ProcessLines(p)
  {
    assert (ps + [p])[..|ps|] == ps;
  }

  lemma {:induction false} MarkedBack(line: string, tag: char)
    requires Tagged(line, tag)
    ensures Marked(tag, line[1..]) == line
  {
  }

  /** The files' lines with one more: a new file's, or a field of the last. */
  lemma {:induction false} FilesWithLine(p: ProcessRecord, line: string)
    requires !Tagged(line, 'p') && (Tagged(line, 'f') || p.files != [])
    ensures FilesLines(ProcessWithLine(p, line).files) == FilesLines(p.files) + [line]
  {
    if Tagged(line, 'f') {
      FilesLinesSnoc(p.files, FileRecord(line[1..], []));
      MarkedBack(line, 'f');
    } else {
      var init, last := p.files[..|p.files| - 1], p.files[|p.files| - 1];
      var more := last.(fields := last.fields + [line]);
      FilesLinesSnoc(init, last);
      FilesLinesSnoc(init, more);
      assert init + [last] == p.files;
      Regrouped([Marked('f', last.descriptor)], last.fields, [line]);
      Regrouped(FilesLines(init), FileLines(last), [line]);
    }
  }

  lemma {:induction false} ProcessWithLineAdds(p: ProcessRecord, line: string)
    requires !Tagged(line, 'p')
    ensures ProcessLines(ProcessWithLine(p, line)) == ProcessLines(p) + [line]
  {
    var head := [Marked('p', p.pid)];
    if Tagged(line, 'f') || p.files != [] {
      FilesWithLine(p, line);
      Regrouped(head + p.notes, FilesLines(p.files), [line]);
    } else {
      Regrouped(head, p.notes, [line]);
      NothingMore(head + p.notes);
      NothingMore(head + p.notes + [line]);
    }
  }

  lemma {:induction false} NothingMore(lines: seq<string>)
    ensures lines + [] == lines
  {
  }

  lemma {:induction false} WithLineAdds(l: Listing, line: string)
    ensures ListingLines(WithLine(l, line)) == ListingLines(l) + [line]
  {
    var ps := l.processes;
    if Tagged(line, 'p') {
      ProcessesLinesSnoc(ps, ProcessRecord(line[1..], [], []));
      MarkedBack(line, 'p');
      Regrouped(l.preamble, ProcessesLines(ps), [line]);
    } else if ps == [] {
      NothingMore(l.preamble);
      NothingMore(l.preamble + [line]);
    } else {
      var init, last := ps[..|ps| - 1], ps[|ps| - 1];
      ProcessWithLineAdds(last, line);
      ProcessesLinesSnoc(init, last);
      ProcessesLinesSnoc(init, ProcessWithLine(last, line));
      assert init + [last] == ps;
      Regrouped(ProcessesLines(init), ProcessLines(last), [line]);
      Regrouped(l.preamble, ProcessesLines(ps), [line]);
    }
  }

  /** Grouping loses nothing: the records print as the lines they came from. */
  lemma {:induction false} GroupedPrints(lines: seq<string>)
    ensures ListingLines(Grouped(lines)) == lines
  {
    if lines == [] {
    } else {
      GroupedPrints(lines[..|lines| - 1]);
      WithLineAdds(Grouped(lines[..|lines| - 1]), lines[|lines| - 1]);
    }
  }

  // ---------- what a listing says ----------

  /** The values of the lines with a tag, in order. */
  function Values(lines: seq<string>, tag: char): seq<string> {
    if lines == [] then []
    else
      var last := lines[|lines| - 1];
      Values(lines[..|lines| - 1], tag) + if Tagged(last, tag) then [last[1..]] else []
  }

  predicate NoneEmpty(lines: seq<string>) { forall i :: 0 <= i < |lines| ==> lines[i] != "" }

  /** Lines that carry no field of a file and start none. */
  predicate Ignorable(lines: seq<string>) {
    forall i :: 0 <= i < |lines| ==> lines[i] != "" && lines[i][0] !in ['f', 't', 'n']
  }

  /** A file record with exactly one family and one name. */
  predicate Complete(f: FileRecord) {
    NoneEmpty(f.fields) && |Values(f.fields, 't')| == 1 && |Values(f.fields, 'n')| == 1
  }

  function FileVerdict(f: FileRecord, q: Query): Option<bool> {
    if Complete(f) then ReadFile(Values(f.fields, 't')[0], Values(f.fields, 'n')[0], q) else None
  }

  /** The pid once for each file that applies, in order. */
  function FilesVerdict(files: seq<FileRecord>, pid: nat, q: Query): Option<seq<nat>> {
    if files == [] then Some([])
    else match (FilesVerdict(files[..|files| - 1], pid, q), FileVerdict(files[|files| - 1], q))
         case (Some(pids), Some(applicable)) => Some(pids + if applicable then [pid] else [])
         case _ => None
  }

  function ProcessVerdict(p: ProcessRecord, q: Query): Option<seq<nat>> {
    match ParseUnsigned(p.pid, U32)
    case None => None
    case Some(pid) => if Ignorable(p.notes) && p.files != [] then FilesVerdict(p.files, pid, q) else None
  }

  function ProcessesVerdict(ps: seq<ProcessRecord>, q: Query): Option<seq<nat>> {
    if ps == [] then Some([])
    else match (ProcessesVerdict(ps[..|ps| - 1], q), ProcessVerdict(ps[|ps| - 1], q))
         case (Some(pids), Some(more)) => Some(pids + more)
         case _ => None
  }

  /** The holders a listing names, or `None` when it must be refused. */
  function Verdict(l: Listing, q: Query): Option<seq<nat>> {
    if Ignorable(l.preamble) then ProcessesVerdict(l.processes, q) else None
  }

  /** The same for the listing's text: whole lines only. */
  function TextVerdict(output: string, q: Query): Option<seq<nat>> {
    if output != "" && output[|output| - 1] == '\n'
    then Verdict(Grouped(Split(output[..|output| - 1], '\n')), q)
    else None
  }

  // ---------- the parser ----------

  datatype LsofFile = LsofFile(family: Option<string>, name: Option<string>)
  datatype State = State(pid: Option<nat>, hasFile: bool, file: Option<LsofFile>, pids: seq<nat>)

  const INITIAL := State(None, false, None, [])

  function FileClosed(s: State, q: Query): Option<State> {
    if s.file.None? then Some(s)
    else if s.file.value.name.None? || s.file.value.family.None? then None
    else match ReadFile(s.file.value.family.value, s.file.value.name.value, q)
         case None => None
         case Some(applicable) =>
           var closed := s.(file := None, hasFile := true);
           if !applicable then Some(closed)
           else if s.pid.None? then None
           else Some(closed.(pids := s.pids + [s.pid.value]))
  }

  function ProcessClosed(s: State, q: Query): Option<State> {
    match FileClosed(s, q)
    case None => None
    case Some(c) =>
      if c.pid.None? then Some(c)
      else if !c.hasFile then None
      else Some(c.(pid := None, hasFile := false))
  }

  function Stepped(s: State, line: string, q: Query): Option<State> {
    if line == "" then None
    else if line[0] == 'p' then
      match (ProcessClosed(s, q), ParseUnsigned(line[1..], U32))
      case (Some(c), Some(pid)) => Some(c.(pid := Some(pid)))
      case _ => None
    else if line[0] == 'f' then
      match FileClosed(s, q)
      case None => None
      case Some(c) => if c.pid.None? then None else Some(c.(file := Some(LsofFile(None, None))))
    else if line[0] == 't' then
      if s.file.None? || s.file.value.family.Some? then None
      else Some(s.(file := Some(s.file.value.(family := Some(line[1..])))))
    else if line[0] == 'n' then
      if s.file.None? || s.file.value.name.Some? then None
      else Some(s.(file := Some(s.file.value.(name := Some(line[1..])))))
    else Some(s)
  }

  class LsofRecords {
    var pid: Option<nat>
    var hasFile: bool
    var file: Option<LsofFile>
    var pids: seq<nat>

    function View(): State
      reads this
    {
      State(pid, hasFile, file, pids)
    }

    constructor ()
      ensures View() == INITIAL
    {
      pid, hasFile, file, pids := None, false, None, [];
    }

    /** End the current file; false when it lacks a field or cannot be read. */
    method CloseFile(q: Query) returns (ok: bool)
      modifies this
      ensures ok == FileClosed(old(View()), q).Some?
      ensures ok ==> View() == FileClosed(old(View()), q).value
    {
      if file.None? {
        return true;
      }
      var taken := file.value;
      file := None;
      hasFile := true;
      if taken.name.None? || taken.family.None? {
        return false;
      }
      var applicable := ReadFile(taken.family.value, taken.name.value, q);
      if applicable.None? {
        return false;
      }
      if applicable.value {
        if pid.None? {
          return false;
        }
        pids := pids + [pid.value];
      }
      return true;
    }

    /** End the current process; false when it listed no file. */
    method CloseProcess(q: Query) returns (ok: bool)
      modifies this
      ensures ok == ProcessClosed(old(View()), q).Some?
      ensures ok ==> View() == ProcessClosed(old(View()), q).value
    {
      ok := CloseFile(q);
      if ok && pid.Some? {
        ok := hasFile;
        pid, hasFile := None, false;
      }
    }

    /** One line of the listing. */
    method Take(line: string, q: Query) returns (ok: bool)
      modifies this
      ensures ok == Stepped(old(View()), line, q).Some?
      ensures ok ==> View() == Stepped(old(View()), line, q).value
    {
      if line == "" {
        return false;
      }
      var tag, value := line[0], line[1..];
      if tag == 'p' {
        ok := CloseProcess(q);
        if ok {
          pid := ParseUnsigned(value, U32);
          ok := pid.Some?;
        }
      } else if tag == 'f' {
        ok := CloseFile(q);
        if ok {
          ok := pid.Some?;
          file := Some(LsofFile(None, None));
        }
      } else if tag == 't' {
        ok := file.Some? && file.value.family.None?;
        if ok {
          file := Some(file.value.(family := Some(value)));
        }
      } else if tag == 'n' {
        ok := file.Some? && file.value.name.None?;
        if ok {
          file := Some(file.value.(name := Some(value)));
        }
      } else {
        ok := true;
      }
    }
  }

  /** `lsof_pids`: exactly what the listing's records say. */
  method LsofPids(output: string, q: Query) returns (r: Option<seq<nat>>)
    ensures r == TextVerdict(output, q)
  {
    if output == "" || output[|output| - 1] != '\n' {
      return None;
    }
    var lines := Split(output[..|output| - 1], '\n');
    var records := new LsofRecords();
    StateOfEmpty(q);
    for i := 0 to |lines|
      invariant fresh(records)
      invariant StateOf(Grouped(lines[..i]), q) == Some(records.View())
    {
      assert lines[..i + 1][..i] == lines[..i];
      SteppedGroups(Grouped(lines[..i]), lines[i], q);
      var ok := records.Take(lines[i], q);
      if !ok {
        RefusedForGood(lines, i + 1, q);
        return None;
      }
    }
    assert lines[..|lines|] == lines;
    FinishedSays(Grouped(lines), q);
    var ok := records.CloseProcess(q);
    return if ok then Some(records.pids) else None;
  }

  // ---------- the state is a function of the records so far ----------

  function PartOf(f: FileRecord): Option<LsofFile> {
    var ts, ns := Values(f.fields, 't'), Values(f.fields, 'n');
    if NoneEmpty(f.fields) && |ts| <= 1 && |ns| <= 1
    then Some(LsofFile(if ts == [] then None else Some(ts[0]), if ns == [] then None else Some(ns[0])))
    else None
  }

  function ProcessState(p: ProcessRecord, pids: seq<nat>, q: Query): Option<State> {
    var m := |p.files| - 1;
    match ParseUnsigned(p.pid, U32)
    case None => None
    case Some(pid) =>
      if !Ignorable(p.notes) then None
      else if m < 0 then Some(State(Some(pid), false, None, pids))
      else match (FilesVerdict(p.files[..m], pid, q), PartOf(p.files[m]))
           case (Some(more), Some(file)) => Some(State(Some(pid), m > 0, Some(file), pids + more))
           case _ => None
  }

  function StateOf(l: Listing, q: Query): Option<State> {
    var n := |l.processes| - 1;
    if !Ignorable(l.preamble) then None
    else if n < 0 then Some(INITIAL)
    else match ProcessesVerdict(l.processes[..n], q)
         case None => None
         case Some(pids) => ProcessState(l.processes[n], pids, q)
  }

  lemma {:induction false} StateOfEmpty(q: Query)
    ensures StateOf(Grouped([]), q) == Some(INITIAL)
  {
  }

  function Then(s: Option<State>, line: string, q: Query): Option<State> {
    if s.None? then None else Stepped(s.value, line, q)
  }

  lemma {:induction false} FieldAdds(f: FileRecord, line: string)
    requires !Tagged(line, 'p') && !Tagged(line, 'f')
    ensures PartOf(f.(fields := f.fields + [line])) ==
            match PartOf(f)
            case None => None
            case Some(file) =>
              if line == "" then None
              else if line[0] == 't' then
                if file.family.Some? then None else Some(file.(family := Some(line[1..])))
              else if line[0] == 'n' then
                if file.name.Some? then None else Some(file.(name := Some(line[1..])))
              else Some(file)
  {
    var more := f.fields + [line];
    assert more[..|more| - 1] == f.fields;
    if NoneEmpty(more) {
      forall i | 0 <= i < |f.fields| ensures f.fields[i] != "" { assert more[i] != ""; }
    }
    assert more[|f.fields|] == line;
  }

  /** Closing the file adds what its record says. */
  lemma {:induction false} FileClosedSays(p: ProcessRecord, pids: seq<nat>, q: Query)
    requires ProcessState(p, pids, q).Some? && p.files != []
    ensures var pid := ParseUnsigned(p.pid, U32).value;
            FileClosed(ProcessState(p, pids, q).value, q) ==
            match FilesVerdict(p.files, pid, q)
            case None => None
            case Some(more) => Some(State(Some(pid), true, None, pids + more))
  {
    var m := |p.files| - 1;
    var pid := ParseUnsigned(p.pid, U32).value;
    var before := FilesVerdict(p.files[..m], pid, q).value;
    assert pids + before + [pid] == pids + (before + [pid]);
    assert before + [] == before;
  }

  lemma {:induction false} ProcessClosedSays(p: ProcessRecord, pids: seq<nat>, q: Query)
    requires ProcessState(p, pids, q).Some?
    ensures ProcessClosed(ProcessState(p, pids, q).value, q) ==
            match ProcessVerdict(p, q)
            case None => None
            case Some(more) => Some(State(None, false, None, pids + more))
  {
    if p.files != [] {
      FileClosedSays(p, pids, q);
    }
  }

  /** A refused process state never gets a verdict. */
  lemma {:induction false} ProcessStateNeeded(p: ProcessRecord, pids: seq<nat>, q: Query)
    requires ProcessState(p, pids, q).None?
    ensures ProcessVerdict(p, q).None?
  {
  }

  /** At the end, the parser answers the verdict of the records. */
  lemma {:induction false} FinishedSays(l: Listing, q: Query)
    ensures match StateOf(l, q)
            case None => Verdict(l, q).None?
            case Some(s) =>
              match ProcessClosed(s, q)
              case None => Verdict(l, q).None?
              case Some(c) => Verdict(l, q) == Some(c.pids)
  {
    var n := |l.processes| - 1;
    if Ignorable(l.preamble) && n >= 0 && ProcessesVerdict(l.processes[..n], q).Some? {
      var pids := ProcessesVerdict(l.processes[..n], q).value;
      if ProcessState(l.processes[n], pids, q).Some? {
        ProcessClosedSays(l.processes[n], pids, q);
      } else {
        ProcessStateNeeded(l.processes[n], pids, q);
      }
    }
  }

  /** One line within a process. */
  lemma {:induction false} ProcessSteps(p: ProcessRecord, pids: seq<nat>, line: string, q: Query)
    requires !Tagged(line, 'p')
    ensures ProcessState(ProcessWithLine(p, line), pids, q) == Then(ProcessState(p, pids, q), line, q)
  {
    var r, m := ProcessWithLine(p, line), |p.files| - 1;
    if Tagged(line, 'f') {
      assert r.files[..m + 1] == p.files;
      assert PartOf(FileRecord(line[1..], [])) == Some(LsofFile(None, None));
      if ProcessState(p, pids, q).Some? {
        if m >= 0 {
          FileClosedSays(p, pids, q);
        } else {
          assert pids + [] == pids;
        }
      }
    } else if m < 0 {
      NoteAdds(p.notes, line);
    } else {
      assert r.files[..m] == p.files[..m];
      FieldAdds(p.files[m], line);
    }
  }

  lemma {:induction false} NoteAdds(notes: seq<string>, line: string)
    ensures Ignorable(notes + [line]) <==> Ignorable(notes) && line != "" && line[0] !in ['f', 't', 'n']
  {
    var more := notes + [line];
    assert more[|notes|] == line;
    if Ignorable(more) {
      forall i | 0 <= i < |notes| ensures notes[i] != "" && notes[i][0] !in ['f', 't', 'n'] {
        assert more[i] == notes[i];
      }
    }
  }

  /** One line of the listing. */
  lemma {:induction false} SteppedGroups(l: Listing, line: string, q: Query)
    ensures StateOf(WithLine(l, line), q) == Then(StateOf(l, q), line, q)
  {
    var r, n := WithLine(l, line), |l.processes| - 1;
    if Tagged(line, 'p') {
      assert r.processes[..n + 1] == l.processes;
      FinishedSays(l, q);
      if Ignorable(l.preamble) && n >= 0 && ProcessesVerdict(l.processes[..n], q).Some? {
        var pids := ProcessesVerdict(l.processes[..n], q).value;
        if ProcessState(l.processes[n], pids, q).Some? {
          ProcessClosedSays(l.processes[n], pids, q);
        }
      }
    } else if n < 0 {
      NoteAdds(l.preamble, line);
    } else {
      assert r.processes[..n] == l.processes[..n];
      if ProcessesVerdict(l.processes[..n], q).Some? {
        ProcessSteps(l.processes[n], ProcessesVerdict(l.processes[..n], q).value, line, q);
      }
    }
  }

  lemma {:induction false} RefusedForGood(lines: seq<string>, k: nat, q: Query)
    requires k <= |lines| && StateOf(Grouped(lines[..k]), q).None?
    ensures StateOf(Grouped(lines), q).None? && Verdict(Grouped(lines), q).None?
  {
    if k == |lines| {
      assert lines[..k] == lines;
      FinishedSays(Grouped(lines), q);
    } else {
      assert lines[..|lines| - 1][..k] == lines[..k];
      RefusedForGood(lines[..|lines| - 1], k, q);
      SteppedGroups(Grouped(lines[..|lines| - 1]), lines[|lines| - 1], q);
      FinishedSays(Grouped(lines), q);
    }
  }
}
