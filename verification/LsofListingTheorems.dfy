/**
 Main results on the `lsof` listing parser: printed listings, listings with a
 file that cannot be read, and listings cut off
 (crates/pocox-core/src/listener.rs).
 */
module LsofListingTheorems {
  import opened Text
  import opened LsofListing

  // ---------- a listing printed ----------

  predicate Plain(lines: seq<string>, starts: set<char>) {
    forall i :: 0 <= i < |lines| ==> PlainLine(lines[i], starts)
  }

  predicate PlainLine(line: string, starts: set<char>) {
    '\n' !in line && (line == "" || line[0] !in starts)
  }

  /** Records that print as themselves: no newline in a field, and no line
      that would start another record. */
  predicate Printable(l: Listing) {
    Plain(l.preamble, {'p'}) && PrintableAll(l.processes)
  }

  predicate PrintableAll(ps: seq<ProcessRecord>) { forall i :: 0 <= i < |ps| ==> PrintableProcess(ps[i]) }

  predicate PrintableProcess(p: ProcessRecord) {
    && '\n' !in p.pid && Plain(p.notes, {'p', 'f'})
    && forall i :: 0 <= i < |p.files| ==> '\n' !in p.files[i].descriptor && Plain(p.files[i].fields, {'p', 'f'})
  }

  function Extended(l: Listing, lines: seq<string>): Listing {
    if lines == [] then l else WithLine(Extended(l, lines[..|lines| - 1]), lines[|lines| - 1])
  }

  lemma {:induction false} ExtendedAppend(l: Listing, a: seq<string>, b: seq<string>)
    ensures Extended(l, a + b) == Extended(Extended(l, a), b)
  {
    if b == [] {
      assert a + b == a;
    } else {
      assert (a + b)[..|a + b| - 1] == a + b[..|b| - 1];
      ExtendedAppend(l, a, b[..|b| - 1]);
    }
  }

  lemma {:induction false} GroupedExtended(lines: seq<string>)
    ensures Grouped(lines) == Extended(Listing([], []), lines)
  {
    if lines == [] {
    } else {
      GroupedExtended(lines[..|lines| - 1]);
    }
  }

  /** The listing with its last process replaced. */
  function OnProcess(l: Listing, p: ProcessRecord): Listing { l.(processes := l.processes + [p]) }

  lemma {:induction false} OnProcessLine(l: Listing, p: ProcessRecord, line: string)
    requires !Tagged(line, 'p')
    ensures WithLine(OnProcess(l, p), line) == OnProcess(l, ProcessWithLine(p, line))
  {
    assert OnProcess(l, p).processes[..|l.processes|] == l.processes;
  }

  function OnFile(p: ProcessRecord, f: FileRecord): ProcessRecord { p.(files := p.files + [f]) }

  lemma {:induction false} ExtendedFields(l: Listing, p: ProcessRecord, d: string, fields: seq<string>)
    requires Plain(fields, {'p', 'f'})
    ensures Extended(OnProcess(l, OnFile(p, FileRecord(d, []))), fields)
         == OnProcess(l, OnFile(p, FileRecord(d, fields)))
  {
    if fields == [] {
    } else {
      var init, last := fields[..|fields| - 1], fields[|fields| - 1];
      ExtendedFields(l, p, d, init);
      var q := OnFile(p, FileRecord(d, init));
      OnProcessLine(l, q, last);
      assert q.files[..|p.files|] == p.files;
      assert init + [last] == fields;
      assert ProcessWithLine(q, last) == OnFile(p, FileRecord(d, fields));
    }
  }

  lemma {:induction false} ExtendedFile(l: Listing, p: ProcessRecord, f: FileRecord)
    requires Plain(f.fields, {'p', 'f'})
    ensures Extended(OnProcess(l, p), FileLines(f)) == OnProcess(l, OnFile(p, f))
  {
    var head := [Marked('f', f.descriptor)];
    ExtendedAppend(OnProcess(l, p), head, f.fields);
    OnProcessLine(l, p, head[0]);
    assert head[0][1..] == f.descriptor;
    assert Extended(OnProcess(l, p), head[..0]) == OnProcess(l, p);
    ExtendedFields(l, p, f.descriptor, f.fields);
  }

  lemma {:induction false} ExtendedFiles(l: Listing, p: ProcessRecord, files: seq<FileRecord>)
    requires p.files == [] && PrintableProcess(p.(files := files))
    ensures Extended(OnProcess(l, p), FilesLines(files)) == OnProcess(l, p.(files := files))
  {
    if files == [] {
    } else {
      var init, last := files[..|files| - 1], files[|files| - 1];
      ExtendedFiles(l, p, init);
      LastFileExtends(l, p, files);
    }
  }

  lemma {:induction false} LastFileExtends(l: Listing, p: ProcessRecord, files: seq<FileRecord>)
    requires files != [] && Plain(files[|files| - 1].fields, {'p', 'f'})
    requires var init := files[..|files| - 1];
             Extended(OnProcess(l, p), FilesLines(init)) == OnProcess(l, p.(files := init))
    ensures Extended(OnProcess(l, p), FilesLines(files)) == OnProcess(l, p.(files := files))
  {
    var init, last := files[..|files| - 1], files[|files| - 1];
    ExtendedAppend(OnProcess(l, p), FilesLines(init), FileLines(last));
    ExtendedFile(l, p.(files := init), last);
    assert OnFile(p.(files := init), last).files == files;
  }

  lemma {:induction false} ExtendedNotes(l: Listing, pid: string, notes: seq<string>)
    requires Plain(notes, {'p', 'f'})
    ensures Extended(OnProcess(l, ProcessRecord(pid, [], [])), notes) == OnProcess(l, ProcessRecord(pid, notes, []))
  {
    if notes == [] {
    } else {
      var init, last := notes[..|notes| - 1], notes[|notes| - 1];
      ExtendedNotes(l, pid, init);
      OnProcessLine(l, ProcessRecord(pid, init, []), last);
      assert init + [last] == notes;
    }
  }

  lemma {:induction false} ExtendedProcess(l: Listing, p: ProcessRecord)
    requires PrintableProcess(p)
    ensures Extended(l, ProcessLines(p)) == OnProcess(l, p)
  {
    var head, start := [Marked('p', p.pid)], ProcessRecord(p.pid, [], []);
    ExtendedAppend(l, head + p.notes, FilesLines(p.files));
    ExtendedAppend(l, head, p.notes);
    assert head[0][1..] == p.pid;
    assert Extended(l, head[..0]) == l;
    assert Extended(l, head) == OnProcess(l, start);
    ExtendedNotes(l, p.pid, p.notes);
    ExtendedFiles(l, ProcessRecord(p.pid, p.notes, []), p.files);
  }

  lemma {:induction false} GroupedSnoc(lines: seq<string>, line: string)
    ensures Grouped(lines + [line]) == WithLine(Grouped(lines), line)
  {
    assert (lines + [line])[..|lines|] == lines;
  }

  lemma {:induction false} GroupedPreamble(preamble: seq<string>)
    requires Plain(preamble, {'p'})
    ensures Grouped(preamble) == Listing(preamble, [])
  {
    if preamble == [] {
    } else {
      var init, last := preamble[..|preamble| - 1], preamble[|preamble| - 1];
      GroupedPreamble(init);
      assert PlainLine(last, {'p'});
      GroupedSnoc(init, last);
      PreambleLine(Listing(init, []), last);
      assert init + [last] == preamble;
    }
  }

  lemma {:induction false} PreambleLine(l: Listing, line: string)
    requires l.processes == [] && !Tagged(line, 'p')
    ensures WithLine(l, line) == Listing(l.preamble + [line], [])
  {
  }

  lemma {:induction false} GroupedProcess(lines: seq<string>, l: Listing, p: ProcessRecord)
    requires Grouped(lines) == l && PrintableProcess(p)
    ensures Grouped(lines + ProcessLines(p)) == OnProcess(l, p)
  {
    GroupedMore(lines, ProcessLines(p));
    ExtendedProcess(l, p);
  }

  lemma {:induction false} PrintedProcessesGroup(preamble: seq<string>, ps: seq<ProcessRecord>)
    requires Plain(preamble, {'p'}) && PrintableAll(ps)
    ensures PrintsAs(preamble, ps)
  {
    var holds := list => PrintableAll(list) ==> PrintsAs(preamble, list);
    NoProcesses(preamble);
    forall init, p | holds(init) ensures holds(init + [p]) {
      if PrintableAll(init + [p]) {
        PrintableInit(init, p);
        OneMoreProcess(preamble, init, p);
      }
    }
    ByLast(ps, holds);
  }

  lemma {:induction false} PrintableInit(ps: seq<ProcessRecord>, p: ProcessRecord)
    requires PrintableAll(ps + [p])
    ensures PrintableAll(ps) && PrintableProcess(p)
  {
    var all := ps + [p];
    assert all[|ps|] == p;
    forall i | 0 <= i < |ps| ensures PrintableProcess(ps[i]) {
      assert all[i] == ps[i];
    }
  }

  predicate PrintsAs(preamble: seq<string>, ps: seq<ProcessRecord>) {
    Grouped(preamble + ProcessesLines(ps)) == Listing(preamble, ps)
  }

  lemma {:induction false} NoProcesses(preamble: seq<string>)
    requires Plain(preamble, {'p'})
    ensures PrintsAs(preamble, [])
  {
    assert preamble + [] == preamble;
    GroupedPreamble(preamble);
  }

  lemma {:induction false} OneMoreProcess(preamble: seq<string>, ps: seq<ProcessRecord>, p: ProcessRecord)
    requires PrintableProcess(p) && PrintsAs(preamble, ps)
    ensures PrintsAs(preamble, ps + [p])
  {
    GroupedProcess(preamble + ProcessesLines(ps), Listing(preamble, ps), p);
    Regrouped(preamble, ProcessesLines(ps), ProcessLines(p));
    ProcessesLinesSnoc(ps, p);
  }

  /** Records printed and grouped again are the same records. */
  lemma {:induction false} PrintedGroups(l: Listing)
    requires Printable(l)
    ensures Grouped(ListingLines(l)) == l
  {
    PrintedProcessesGroup(l.preamble, l.processes);
  }

  lemma {:induction false} GroupedMore(a: seq<string>, b: seq<string>)
    ensures Grouped(a + b) == Extended(Grouped(a), b)
  {
    GroupedExtended(a);
    GroupedExtended(a + b);
    ExtendedAppend(Listing([], []), a, b);
  }

  /** The text of a listing, every line ended. */
  function ListingText(l: Listing): string { Join(ListingLines(l), '\n') + "\n" }

  lemma {:induction false} FilesPlain(files: seq<FileRecord>)
    requires forall i :: 0 <= i < |files| ==> '\n' !in files[i].descriptor && Plain(files[i].fields, {'p', 'f'})
    ensures Plain(FilesLines(files), {})
  {
    if files == [] {
    } else {
      FilesPlain(files[..|files| - 1]);
    }
  }

  lemma {:induction false} ProcessesPlain(ps: seq<ProcessRecord>)
    requires PrintableAll(ps)
    ensures Plain(ProcessesLines(ps), {})
  {
    if ps == [] {
    } else {
      ProcessesPlain(ps[..|ps| - 1]);
      FilesPlain(ps[|ps| - 1].files);
    }
  }

  /** A printed listing's text is read back as its records. */
  lemma {:induction false} PrintedRecords(l: Listing)
    requires Printable(l) && ListingLines(l) != []
    ensures var text := ListingText(l);
            text != "" && text[|text| - 1] == '\n' && Grouped(Split(text[..|text| - 1], '\n')) == l
  {
    var text, lines := ListingText(l), ListingLines(l);
    ProcessesPlain(l.processes);
    SplitJoin(lines, '\n');
    assert text[..|text| - 1] == Join(lines, '\n');
    PrintedGroups(l);
  }

  /** Parsing a printed listing answers what its records say. */
  lemma {:induction false} PrintedVerdict(l: Listing, q: Query)
    requires Printable(l) && ListingLines(l) != []
    ensures TextVerdict(ListingText(l), q) == Verdict(l, q)
  {
    PrintedRecords(l);
  }

  // ---------- a file that cannot be read ----------

  lemma {:induction false} FilesRefused(files: seq<FileRecord>, pid: nat, j: nat, q: Query)
    requires j < |files| && FileVerdict(files[j], q).None?
    ensures FilesVerdict(files, pid, q).None?
    decreases |files|
  {
    if j == |files| - 1 {
    } else {
      FilesRefused(files[..|files| - 1], pid, j, q);
    }
  }

  lemma {:induction false} ProcessesRefused(ps: seq<ProcessRecord>, i: nat, q: Query)
    requires i < |ps| && ProcessVerdict(ps[i], q).None?
    ensures ProcessesVerdict(ps, q).None?
    decreases |ps|
  {
    if i == |ps| - 1 {
    } else {
      ProcessesRefused(ps[..|ps| - 1], i, q);
    }
  }

  /** One file that cannot be read refuses any text it is grouped from. */
  lemma {:induction false} UnreadableFileRefuses(output: string, i: nat, j: nat, q: Query)
    requires output != "" && output[|output| - 1] == '\n'
    requires var ps := Grouped(Split(output[..|output| - 1], '\n')).processes;
             i < |ps| && j < |ps[i].files| && FileVerdict(ps[i].files[j], q).None?
    ensures TextVerdict(output, q).None?
  {
    var ps := Grouped(Split(output[..|output| - 1], '\n')).processes;
    var pid := ParseUnsigned(ps[i].pid, U32);
    if pid.Some? {
      FilesRefused(ps[i].files, pid.value, j, q);
    }
    ProcessesRefused(ps, i, q);
  }

  /** A printed listing with such a file anywhere is refused whole. */
  lemma {:induction false} UnreadableListingRefused(l: Listing, i: nat, j: nat, q: Query)
    requires Printable(l) && i < |l.processes| && j < |l.processes[i].files|
    requires FileVerdict(l.processes[i].files[j], q).None?
    ensures TextVerdict(ListingText(l), q).None?
  {
    PrintedRecords(l);
    UnreadableFileRefuses(ListingText(l), i, j, q);
  }

  /** So one scoped socket on a requested address refuses the listing. */
  lemma {:induction false} ScopedListingRefused(l: Listing, i: nat, j: nat, address: string, zone: string, q: Query)
    requires Printable(l) && i < |l.processes| && j < |l.processes[i].files|
    requires '%' !in address && q.port < U16
    requires q.ip(address).Some? && Named(q.ip(address).value, q.requested)
    requires Values(l.processes[i].files[j].fields, 'n') == ["[" + address + "%" + zone + "]:" + Decimal(q.port)]
    ensures TextVerdict(ListingText(l), q).None?
  {
    var f := l.processes[i].files[j];
    if Complete(f) {
      ScopedRefused(Values(f.fields, 't')[0], address, zone, q);
    }
    UnreadableListingRefused(l, i, j, q);
  }

  // ---------- a listing cut off ----------

  /** Every process begun ends in a file with both fields. */
  predicate Whole(l: Listing) {
    var n := |l.processes| - 1;
    n < 0 || (l.processes[n].files != [] && Complete(l.processes[n].files[|l.processes[n].files| - 1]))
  }

  lemma {:induction false} VerdictIsWhole(l: Listing, q: Query)
    requires Verdict(l, q).Some?
    ensures Whole(l)
  {
  }

  /** What holds of every prefix of a listing accepted with these holders. */
  predicate Continues(l: Listing, q: Query, all: seq<nat>) {
    && StateOf(l, q).Some? && StateOf(l, q).value.pids <= all
    && (Whole(l) ==> Verdict(l, q).Some? && Verdict(l, q).value <= all)
  }

  /** A new process is taken only after what came before is complete. */
  lemma {:induction false} BeforeProcess(l: Listing, line: string, q: Query)
    requires Tagged(line, 'p') && StateOf(WithLine(l, line), q).Some?
    ensures StateOf(l, q).Some? && Verdict(l, q) == Some(StateOf(WithLine(l, line), q).value.pids)
  {
    SteppedGroups(l, line, q);
    FinishedSays(l, q);
  }

  /** A new file is taken only after a last one that can be read. */
  lemma {:induction false} BeforeFile(l: Listing, line: string, q: Query)
    requires Tagged(line, 'f') && l.processes != [] && Whole(l) && StateOf(WithLine(l, line), q).Some?
    ensures StateOf(l, q).Some? && Verdict(l, q) == Some(StateOf(WithLine(l, line), q).value.pids)
  {
    SteppedGroups(l, line, q);
    FinishedSays(l, q);
    var n := |l.processes| - 1;
    FileClosedSays(l.processes[n], ProcessesVerdict(l.processes[..n], q).value, q);
  }

  lemma {:induction false} PidsGrow(l: Listing, line: string, q: Query)
    requires StateOf(WithLine(l, line), q).Some?
    ensures StateOf(l, q).Some? && StateOf(l, q).value.pids <= StateOf(WithLine(l, line), q).value.pids
  {
    SteppedGroups(l, line, q);
    ThenGrows(StateOf(l, q), line, q);
  }

  lemma {:induction false} ThenGrows(s: Option<State>, line: string, q: Query)
    requires Then(s, line, q).Some?
    ensures s.Some? && s.value.pids <= Then(s, line, q).value.pids
  {
  }

  lemma {:induction false} ContinuesBack(l: Listing, line: string, q: Query, all: seq<nat>)
    requires Continues(WithLine(l, line), q, all)
    ensures Continues(l, q, all)
  {
    PidsGrow(l, line, q);
    if Tagged(line, 'p') {
      BeforeProcess(l, line, q);
    } else if Whole(l) {
      if l.processes == [] {
        assert Verdict(l, q) == Some([]);
      } else if Tagged(line, 'f') {
        BeforeFile(l, line, q);
      } else {
        WholeStays(l, line, q);
      }
    }
  }

  /** A complete file takes no further field, only ignored lines. */
  lemma {:induction false} FileStays(f: FileRecord, line: string, q: Query)
    requires Complete(f) && PartOf(f.(fields := f.fields + [line])).Some?
    ensures var more := f.(fields := f.fields + [line]);
            Complete(more) && FileVerdict(more, q) == FileVerdict(f, q)
  {
    var more := f.fields + [line];
    assert more[..|more| - 1] == f.fields;
  }

  lemma {:induction false} ProcessStays(p: ProcessRecord, line: string, pids: seq<nat>, q: Query)
    requires p.files != [] && Complete(p.files[|p.files| - 1]) && !Tagged(line, 'f')
    requires ProcessState(ProcessWithLine(p, line), pids, q).Some?
    ensures var r := ProcessWithLine(p, line);
            && r.files != [] && Complete(r.files[|r.files| - 1])
            && ProcessVerdict(r, q) == ProcessVerdict(p, q)
  {
    var r, m := ProcessWithLine(p, line), |p.files| - 1;
    assert r.files[..m] == p.files[..m];
    FileStays(p.files[m], line, q);
  }

  lemma {:induction false} WholeStays(l: Listing, line: string, q: Query)
    requires Whole(l) && l.processes != [] && !Tagged(line, 'p') && !Tagged(line, 'f')
    requires StateOf(WithLine(l, line), q).Some?
    ensures Whole(WithLine(l, line)) && Verdict(WithLine(l, line), q) == Verdict(l, q)
  {
    var n := |l.processes| - 1;
    var r := WithLine(l, line);
    assert r.processes[..n] == l.processes[..n];
    ProcessStays(l.processes[n], line, ProcessesVerdict(r.processes[..n], q).value, q);
  }

  /** What a line's absence cannot break holds of every prefix. */
  lemma {:induction false} ByPrefix(lines: seq<string>, k: nat, holds: Listing -> bool)
    requires k <= |lines| && holds(Grouped(lines))
    requires forall l, line :: holds(WithLine(l, line)) ==> holds(l)
    ensures holds(Grouped(lines[..k]))
    decreases |lines|
  {
    if k == |lines| {
      assert lines[..k] == lines;
    } else {
      var init, last := lines[..|lines| - 1], lines[|lines| - 1];
      GroupedSnoc(init, last);
      assert init + [last] == lines;
      ByPrefix(init, k, holds);
      assert init[..k] == lines[..k];
    }
  }

  lemma {:induction false} PrefixContinues(lines: seq<string>, k: nat, q: Query, all: seq<nat>)
    requires k <= |lines| && Continues(Grouped(lines), q, all)
    ensures Continues(Grouped(lines[..k]), q, all)
  {
    var holds := l => Continues(l, q, all);
    forall l, line | holds(WithLine(l, line)) ensures holds(l) {
      ContinuesBack(l, line, q, all);
    }
    ByPrefix(lines, k, holds);
  }

  lemma {:induction false} LinesCut(lines: seq<string>, k: nat, q: Query)
    requires k <= |lines| && Verdict(Grouped(lines), q).Some?
    ensures Verdict(Grouped(lines[..k]), q).Some? <==> Whole(Grouped(lines[..k]))
    ensures Verdict(Grouped(lines[..k]), q).Some? ==>
              Verdict(Grouped(lines[..k]), q).value <= Verdict(Grouped(lines), q).value
  {
    var all := Verdict(Grouped(lines), q).value;
    AcceptedContinues(Grouped(lines), q);
    PrefixContinues(lines, k, q, all);
    if Verdict(Grouped(lines[..k]), q).Some? {
      VerdictIsWhole(Grouped(lines[..k]), q);
    }
  }

  lemma {:induction false} AcceptedContinues(l: Listing, q: Query)
    requires Verdict(l, q).Some?
    ensures Continues(l, q, Verdict(l, q).value)
  {
    FinishedSays(l, q);
  }

  /** A listing cut short anywhere is refused, unless the cut falls right
      after a line that leaves every record begun complete; only then are its
      holders answered, and they are the first of the whole listing's. */
  lemma {:induction false} CutAcceptedIff(output: string, c: nat, q: Query)
    requires TextVerdict(output, q).Some? && c < |output|
    ensures TextVerdict(output[..c], q).Some? <==>
            c > 0 && output[c - 1] == '\n' && Whole(Grouped(Split(output[..c - 1], '\n')))
    ensures TextVerdict(output[..c], q).Some? ==>
              TextVerdict(output[..c], q).value <= TextVerdict(output, q).value
  {
    if c > 0 && output[c - 1] == '\n' {
      CutLines(output, c);
      EndedVerdict(output[..c], q);
      assert output[..c][..c - 1] == output[..c - 1];
      CutOfLines(Split(output[..|output| - 1], '\n'), Split(output[..c - 1], '\n'), q);
    }
  }

  lemma {:induction false} EndedVerdict(text: string, q: Query)
    requires text != "" && text[|text| - 1] == '\n'
    ensures TextVerdict(text, q) == Verdict(Grouped(Split(text[..|text| - 1], '\n')), q)
  {
  }

  lemma {:induction false} CutOfLines(lines: seq<string>, head: seq<string>, q: Query)
    requires head <= lines && Verdict(Grouped(lines), q).Some?
    ensures Verdict(Grouped(head), q).Some? <==> Whole(Grouped(head))
    ensures Verdict(Grouped(head), q).Some? ==>
              Verdict(Grouped(head), q).value <= Verdict(Grouped(lines), q).value
  {
    assert lines[..|head|] == head;
    LinesCut(lines, |head|, q);
  }

  lemma {:induction false} CutLines(output: string, c: nat)
    requires 0 < c < |output| && output[c - 1] == '\n'
    ensures Split(output[..c - 1], '\n') <= Split(output[..|output| - 1], '\n')
  {
    var head, rest := output[..c - 1], output[c..|output| - 1];
    assert output[..|output| - 1] == head + ['\n'] + rest;
    SplitAppend(head, '\n', rest);
  }

  lemma {:induction false} JoinAppend(a: seq<string>, b: seq<string>)
    requires a != [] && b != []
    ensures Join(a + b, '\n') == Join(a, '\n') + "\n" + Join(b, '\n')
  {
    if |a| == 1 {
      assert (a + b)[1..] == b;
    } else {
      assert (a + b)[1..] == a[1..] + b;
      JoinAppend(a[1..], b);
    }
  }

  /** The text of a listing's first processes is the start of its text. */
  lemma {:induction false} FirstProcessesCut(l: Listing, p: ProcessRecord)
    requires ListingLines(l) != []
    ensures ListingText(l) < ListingText(OnProcess(l, p))
  {
    var more := OnProcess(l, p);
    ProcessesLinesSnoc(l.processes, p);
    Regrouped(l.preamble, ProcessesLines(l.processes), ProcessLines(p));
    assert ListingLines(more) == ListingLines(l) + ProcessLines(p);
    JoinAppend(ListingLines(l), ProcessLines(p));
    assert ListingText(more) == ListingText(l) + (Join(ProcessLines(p), '\n') + "\n");
  }

  lemma {:induction false} WildcardOnPort(q: Query)
    requires q.port < U16
    ensures ReadFile("IPv4", "*:" + Decimal(q.port), q) == Some(Applies(V4(0), q.requested))
  {
    var port := Decimal(q.port);
    var name := "*" + [':'] + port;
    ParseUnsignedDecimal(q.port, U16);
    LastIndex("*", ':', port);
    assert name == "*:" + port && name[..1] == "*" && name[2..] == port;
  }

  /** A file with a family and a name. */
  function Socket(family: string, name: string): FileRecord {
    FileRecord("", [Marked('t', family), Marked('n', name)])
  }

  lemma {:induction false} SocketFields(family: string, name: string)
    ensures Values(Socket(family, name).fields, 't') == [family]
    ensures Values(Socket(family, name).fields, 'n') == [name]
    ensures Complete(Socket(family, name))
  {
    var t, n := Marked('t', family), Marked('n', name);
    var fields := [t, n];
    assert fields[..1] == [t] && t[1..] == family && n[1..] == name;
    assert Values([t], 't') == Values([t][..0], 't') + [family] && Values([t], 'n') == Values([t][..0], 'n') + [];
    assert Values(fields, 't') == [family] + [] && Values(fields, 'n') == [] + [name];
  }

  /** A process with one socket on every IPv4 address. */
  function Holder(pid: nat, port: nat): ProcessRecord {
    ProcessRecord(Decimal(pid), [], [Socket("IPv4", "*:" + Decimal(port))])
  }

  lemma {:induction false} OneFile(f: FileRecord, pid: nat, q: Query)
    requires FileVerdict(f, q) == Some(true)
    ensures FilesVerdict([f], pid, q) == Some([pid])
  {
    var files := [f];
    assert files[..|files| - 1] == [];
    assert [] + [pid] == [pid];
  }

  lemma {:induction false} HolderSays(pid: nat, q: Query)
    requires q.port < U16 && pid < U32 && Applies(V4(0), q.requested)
    ensures ProcessVerdict(Holder(pid, q.port), q) == Some([pid])
  {
    var f := Socket("IPv4", "*:" + Decimal(q.port));
    WildcardOnPort(q);
    SocketFields("IPv4", "*:" + Decimal(q.port));
    ParseUnsignedDecimal(pid, U32);
    OneFile(f, pid, q);
  }

  lemma {:induction false} HolderPrintable(pid: nat, port: nat)
    ensures PrintableProcess(Holder(pid, port))
  {
    var fields := Socket("IPv4", "*:" + Decimal(port)).fields;
    assert PlainLine(fields[0], {'p', 'f'}) && PlainLine(fields[1], {'p', 'f'});
  }

  lemma {:induction false} AnyTakesAny(q: Query)
    requires q.requested == [V4(0)]
    ensures Applies(V4(0), q.requested)
  {
    assert TakesFor(Canonical(V4(0)), Canonical(q.requested[0]));
  }

  lemma {:induction false} ProcessesVerdictSnoc(ps: seq<ProcessRecord>, p: ProcessRecord, q: Query)
    requires ProcessesVerdict(ps, q).Some? && ProcessVerdict(p, q).Some?
    ensures ProcessesVerdict(ps + [p], q) == Some(ProcessesVerdict(ps, q).value + ProcessVerdict(p, q).value)
  {
    assert (ps + [p])[..|ps|] == ps;
  }

  /** A process added to a printed listing adds its holders, and the text cut
      back to the listing answers the listing's own. */
  lemma {:induction false} CutAfterProcess(l: Listing, p: ProcessRecord, q: Query)
    requires Printable(l) && ListingLines(l) != [] && PrintableProcess(p)
    requires Verdict(l, q).Some? && ProcessVerdict(p, q).Some?
    ensures var text, c := ListingText(OnProcess(l, p)), |ListingText(l)|;
            && 0 < c < |text|
            && TextVerdict(text, q) == Some(Verdict(l, q).value + ProcessVerdict(p, q).value)
            && TextVerdict(text[..c], q) == Verdict(l, q)
  {
    AddedProcess(l, p, q);
    PrintedVerdict(l, q);
    FirstProcessesCut(l, p);
    assert ListingText(OnProcess(l, p))[..|ListingText(l)|] == ListingText(l);
  }

  lemma {:induction false} AddedProcess(l: Listing, p: ProcessRecord, q: Query)
    requires Printable(l) && PrintableProcess(p) && Verdict(l, q).Some? && ProcessVerdict(p, q).Some?
    ensures TextVerdict(ListingText(OnProcess(l, p)), q) == Some(Verdict(l, q).value + ProcessVerdict(p, q).value)
  {
    ProcessesVerdictSnoc(l.processes, p, q);
    ProcessesLinesSnoc(l.processes, p);
    PrintedVerdict(OnProcess(l, p), q);
  }

  lemma {:induction false} OneProcess(p: ProcessRecord, q: Query)
    requires PrintableProcess(p) && ProcessVerdict(p, q).Some?
    ensures var l := Listing([], [p]);
            Printable(l) && ListingLines(l) != [] && Verdict(l, q) == ProcessVerdict(p, q)
  {
    ProcessesVerdictSnoc([], p, q);
    ProcessesLinesSnoc([], p);
    assert [] + [p] == [p] && [] + ProcessVerdict(p, q).value == ProcessVerdict(p, q).value;
  }

  lemma {:induction false} CutAfterFirst(one: ProcessRecord, two: ProcessRecord, q: Query)
    returns (output: string, c: nat)
    requires PrintableProcess(one) && PrintableProcess(two)
    requires ProcessVerdict(one, q).Some? && ProcessVerdict(two, q).Some?
    ensures 0 < c < |output| && TextVerdict(output[..c], q) == ProcessVerdict(one, q)
    ensures TextVerdict(output, q) == Some(ProcessVerdict(one, q).value + ProcessVerdict(two, q).value)
  {
    var l := Listing([], [one]);
    OneProcess(one, q);
    CutAfterProcess(l, two, q);
    output, c := ListingText(OnProcess(l, two)), |ListingText(l)|;
  }

  /** A listing cut off can be answered with fewer holders: cut after its first
      process, a listing of two holders of a requested port names one. */
  lemma {:induction false} CutNamesFewer(ip: string -> Option<Ip>, port: nat)
    returns (output: string, c: nat, q: Query)
    requires port < U16
    ensures q == Query(ip, [V4(0)], port) && 0 < c < |output|
    ensures TextVerdict(output, q) == Some([1, 2]) && TextVerdict(output[..c], q) == Some([1])
  {
    q := Query(ip, [V4(0)], port);
    AnyTakesAny(q);
    HolderSays(1, q);
    HolderSays(2, q);
    HolderPrintable(1, port);
    HolderPrintable(2, port);
    output, c := CutAfterFirst(Holder(1, port), Holder(2, port), q);
    assert [1] + [2] == [1, 2];
  }
}
