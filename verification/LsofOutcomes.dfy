/**
 What the `lsof` listing parser answers, in terms of addresses, ports and
 fields alone: when a socket applies, when it cannot be read, and whom a
 listing names.
 */
module LsofOutcomes {
  import opened Text
  import opened LsofListing

  // ---------- addresses ----------

  /** The IPv4 address an address stands for: itself, or the one it maps. */
  function V4Of(ip: Ip): Option<nat> {
    match ip
    case V4(bits) => Some(bits)
    case V6(bits) => if 0xFFFF_0000_0000 <= bits <= 0xFFFF_FFFF_FFFF then Some(bits - 0xFFFF_0000_0000) else None
  }

  /** Connections to `requested` reach a listener bound to `bound`: within one
      family, the same address or either unspecified; across families, only a
      listener on the unspecified IPv6 address takes IPv4. */
  predicate Reaches(bound: Ip, requested: Ip) {
    match (V4Of(bound), V4Of(requested))
    case (Some(b), Some(r)) => b == r || b == 0 || r == 0
    case (None, None) => bound.bits == requested.bits || bound.bits == 0 || requested.bits == 0
    case (None, Some(_)) => bound.bits == 0
    case (Some(_), None) => false
  }

  lemma {:induction false} CanonicalIs(ip: Ip)
    ensures match V4Of(ip)
            case Some(bits) => Canonical(ip) == V4(bits)
            case None => Canonical(ip) == ip && ip.V6?
  {
    if ip.V6? {
      var high, low := ip.bits / 0x1_0000_0000, ip.bits % 0x1_0000_0000;
      assert ip.bits == high * 0x1_0000_0000 + low;
    }
  }

  /** A socket applies exactly when some requested address reaches it. */
  lemma {:induction false} AppliesIff(bound: Ip, requested: seq<Ip>)
    ensures Applies(bound, requested) <==> exists i :: 0 <= i < |requested| && Reaches(bound, requested[i])
  {
    CanonicalIs(bound);
    forall i | 0 <= i < |requested|
      ensures TakesFor(Canonical(bound), Canonical(requested[i])) <==> Reaches(bound, requested[i])
    {
      CanonicalIs(requested[i]);
    }
  }

  /** A scoped literal is compared with the requested addresses by what it
      stands for. */
  lemma {:induction false} NamedIff(ip: Ip, requested: seq<Ip>)
    ensures Named(ip, requested) <==>
            exists i :: 0 <= i < |requested| && if V4Of(ip).Some? then V4Of(requested[i]) == V4Of(ip)
                                                else requested[i] == ip
  {
    CanonicalIs(ip);
    forall i | 0 <= i < |requested|
      ensures Canonical(requested[i]) == Canonical(ip) <==>
              if V4Of(ip).Some? then V4Of(requested[i]) == V4Of(ip) else requested[i] == ip
    {
      CanonicalIs(requested[i]);
    }
  }

  // ---------- a listed host ----------

  predicate Brackets(host: string) { |host| >= 2 && host[0] == '[' && host[|host| - 1] == ']' }

  /** The literal a host is, its brackets removed. */
  function Bare(host: string): string { if Brackets(host) then host[1..|host| - 1] else host }

  /** A host applies as its address does, a zone notwithstanding; it cannot be
      read when it is no literal, or has a zone and names a requested address. */
  lemma {:induction false} ListedAppliesIff(host: string, address: string, zone: string, q: Query)
    requires '%' !in address
    ensures Bare(host) == address ==>
              ListedApplies(host, q)
              == match q.ip(address) case None => None case Some(ip) => Some(Applies(ip, q.requested))
    ensures Bare(host) == address + "%" + zone ==>
              ListedApplies(host, q)
              == match q.ip(address)
                 case None => None
                 case Some(ip) => if Named(ip, q.requested) then None else Some(Applies(ip, q.requested))
  {
    if Bare(host) == address {
      NoIndex(address);
    } else if Bare(host) == address + "%" + zone {
      FirstIndex(address, '%', zone);
      assert (address + "%" + zone)[..|address|] == address && (address + "%" + zone)[|address| + 1..] == zone;
    }
  }

  lemma {:induction false} NoIndex(s: string)
    requires '%' !in s
    ensures IndexOf(s, '%') == None
  {
  }

  lemma {:induction false} NoLastIndex(s: string)
    requires ':' !in s
    ensures LastIndexOf(s, ':') == None
  {
  }

  /** A file's socket applies as its host does when its port is the one asked
      for; any other port does not apply; and without a port, with one that is
      no 16-bit numeral, or under `*` of no known family, it cannot be read. */
  lemma {:induction false} ReadFileIff(family: string, host: string, portText: string, port: nat, q: Query)
    requires ':' !in portText
    ensures ReadFile(family, portText, q) == None
    ensures var read := ReadFile(family, host + ":" + portText, q);
            && ((forall n :: n < 65536 ==> !Numeral(portText, n)) ==> read == None)
            && (Numeral(portText, port) && port < 65536 && port != q.port ==> read == Some(false))
            && (Numeral(portText, port) && port < 65536 && port == q.port ==>
                  read == if host != "*" then ListedApplies(host, q)
                          else if family == "IPv4" then Some(Applies(V4(0), q.requested))
                          else if family == "IPv6" then Some(Applies(V6(0), q.requested))
                          else None)
  {
    LastIndex(host, ':', portText);
    var name := host + [':'] + portText;
    assert name == host + ":" + portText && name[..|host|] == host && name[|host| + 1..] == portText;
    NoLastIndex(portText);
    ParseUnsignedIff(portText, port, U16);
    var parsed := ParseUnsigned(portText, U16);
    if parsed.Some? {
      ParseUnsignedIff(portText, parsed.value, U16);
    }
  }

  // ---------- whom a listing names ----------

  /** The one line of the list with this tag. */
  ghost predicate OnlyField(fields: seq<string>, tag: char, value: string) {
    exists i :: 0 <= i < |fields| && fields[i] == [tag] + value
                && forall j :: 0 <= j < |fields| && j != i ==> fields[j] == "" || fields[j][0] != tag
  }

  ghost predicate Tells(f: FileRecord, q: Query, applies: bool) {
    && (forall i :: 0 <= i < |f.fields| ==> f.fields[i] != "")
    && exists family, name :: OnlyField(f.fields, 't', family) && OnlyField(f.fields, 'n', name)
                              && ReadFile(family, name, q) == Some(applies)
  }

  predicate NoField(fields: seq<string>, tag: char) {
    forall j :: 0 <= j < |fields| ==> fields[j] == "" || fields[j][0] != tag
  }

  /** A list of lines with one more. */
  lemma {:induction false} OnlyFieldSnoc(fields: seq<string>, tag: char, value: string)
    requires fields != []
    ensures var init, last := fields[..|fields| - 1], fields[|fields| - 1];
            && (NoField(fields, tag) <==> NoField(init, tag) && !Tagged(last, tag))
            && (OnlyField(fields, tag, value) <==>
                  if Tagged(last, tag) then last == [tag] + value && NoField(init, tag)
                  else OnlyField(init, tag, value))
  {
    var n := |fields| - 1;
    var init := fields[..n];
    assert forall j :: 0 <= j < n ==> init[j] == fields[j];
    if OnlyField(fields, tag, value) {
      var i :| 0 <= i < |fields| && fields[i] == [tag] + value
               && forall j :: 0 <= j < |fields| && j != i ==> fields[j] == "" || fields[j][0] != tag;
      if i < n {
        assert init[i] == [tag] + value;
      }
    }
    if OnlyField(init, tag, value) && !Tagged(fields[n], tag) {
      var i :| 0 <= i < |init| && init[i] == [tag] + value
               && forall j :: 0 <= j < |init| && j != i ==> init[j] == "" || init[j][0] != tag;
      assert fields[i] == [tag] + value;
    }
    if Tagged(fields[n], tag) && fields[n] == [tag] + value && NoField(init, tag) {
      assert fields[n] == [tag] + value;
    }
  }

  lemma {:induction false} ValuesOnly(fields: seq<string>, tag: char, value: string)
    ensures Values(fields, tag) == [] <==> NoField(fields, tag)
    ensures Values(fields, tag) == [value] <==> OnlyField(fields, tag, value)
  {
    if fields == [] {
    } else {
      var n := |fields| - 1;
      ValuesOnly(fields[..n], tag, value);
      OnlyFieldSnoc(fields, tag, value);
      var last := fields[n];
      if Tagged(last, tag) {
        assert last == [tag] + last[1..];
        LastOf(Values(fields[..n], tag), last[1..], value);
      }
    }
  }

  lemma {:induction false} LastOf(init: seq<string>, last: string, value: string)
    ensures init + [last] == [value] <==> init == [] && last == value
  {
    if init + [last] == [value] {
      assert |init| == 0 && (init + [last])[0] == last;
    }
  }

  ghost predicate Told(f: FileRecord, q: Query) { Tells(f, q, true) || Tells(f, q, false) }

  /** A file tells exactly what its one family and one name say. */
  lemma {:induction false} FileVerdictIff(f: FileRecord, q: Query, applies: bool)
    ensures FileVerdict(f, q) == Some(applies) <==> Tells(f, q, applies)
  {
    var ts, ns := Values(f.fields, 't'), Values(f.fields, 'n');
    forall value ensures ts == [value] <==> OnlyField(f.fields, 't', value) {
      ValuesOnly(f.fields, 't', value);
    }
    forall value ensures ns == [value] <==> OnlyField(f.fields, 'n', value) {
      ValuesOnly(f.fields, 'n', value);
    }
    if |ts| == 1 && |ns| == 1 {
      assert ts == [ts[0]] && ns == [ns[0]];
    }
  }

  predicate Stray(lines: seq<string>) {
    exists i :: 0 <= i < |lines| && (lines[i] == "" || lines[i][0] == 'f' || lines[i][0] == 't' || lines[i][0] == 'n')
  }

  ghost predicate AllTold(files: seq<FileRecord>, q: Query) {
    forall f :: f in files ==> Told(f, q)
  }

  ghost predicate OneApplies(files: seq<FileRecord>, q: Query) {
    exists f :: f in files && Tells(f, q, true)
  }

  /** A process record that can be read: a 32-bit pid, no field before its first
      file, at least one file, and each file telling whether it applies. */
  ghost predicate Readable(p: ProcessRecord, q: Query) {
    && (exists pid :: pid < 0x1_0000_0000 && Numeral(p.pid, pid))
    && !Stray(p.notes) && p.files != [] && AllTold(p.files, q)
  }

  /** The process holds an applicable socket. */
  ghost predicate Holds(p: ProcessRecord, q: Query, pid: nat) { Numeral(p.pid, pid) && OneApplies(p.files, q) }

  ghost predicate AllReadable(ps: seq<ProcessRecord>, q: Query) {
    forall p :: p in ps ==> Readable(p, q)
  }

  ghost predicate OneHolds(ps: seq<ProcessRecord>, q: Query, pid: nat) {
    exists p :: p in ps && Holds(p, q, pid)
  }

  lemma {:induction false} StrayIff(lines: seq<string>)
    ensures Stray(lines) <==> !Ignorable(lines)
  {
  }

  lemma {:induction false} FilesSnoc(files: seq<FileRecord>, q: Query)
    requires files != []
    ensures var init, last := files[..|files| - 1], files[|files| - 1];
            && (AllTold(files, q) <==> AllTold(init, q) && Told(last, q))
            && (OneApplies(files, q) <==> OneApplies(init, q) || Tells(last, q, true))
  {
    var init, last := files[..|files| - 1], files[|files| - 1];
    assert files == init + [last];
    assert last in files && forall f :: f in files <==> f in init || f == last;
  }

  lemma {:induction false} FilesVerdictIff(files: seq<FileRecord>, pid: nat, q: Query, other: nat)
    ensures FilesVerdict(files, pid, q).Some? <==> AllTold(files, q)
    ensures FilesVerdict(files, pid, q).Some? ==>
              (other in FilesVerdict(files, pid, q).value <==> other == pid && OneApplies(files, q))
  {
    if files == [] {
    } else {
      var n := |files| - 1;
      FilesVerdictIff(files[..n], pid, q, other);
      FileVerdictIff(files[n], q, true);
      FileVerdictIff(files[n], q, false);
      FilesSnoc(files, q);
    }
  }

  lemma {:induction false} PidIff(text: string)
    ensures var parsed := ParseUnsigned(text, U32);
            && (parsed.Some? <==> exists pid :: pid < 0x1_0000_0000 && Numeral(text, pid))
            && forall pid :: parsed.Some? ==> (Numeral(text, pid) <==> parsed.value == pid)
  {
    var parsed := ParseUnsigned(text, U32);
    forall n ensures parsed == Some(n) <==> Numeral(text, n) && n < 0x1_0000_0000 {
      ParseUnsignedIff(text, n, U32);
    }
    if parsed.Some? {
      forall pid | Numeral(text, pid) ensures parsed.value == pid {
        NumeralUnique(text, parsed.value, pid);
      }
    }
  }

  lemma {:induction false} NumeralUnique(s: string, m: nat, n: nat)
    requires Numeral(s, m) && Numeral(s, n)
    ensures m == n
  {
    ParseUnsignedIff(s, m, m + n + 1);
    ParseUnsignedIff(s, n, m + n + 1);
  }

  lemma {:induction false} ProcessVerdictIff(p: ProcessRecord, q: Query, pid: nat)
    ensures ProcessVerdict(p, q).Some? <==> Readable(p, q)
    ensures ProcessVerdict(p, q).Some? ==> (pid in ProcessVerdict(p, q).value <==> Holds(p, q, pid))
  {
    PidIff(p.pid);
    StrayIff(p.notes);
    var parsed := ParseUnsigned(p.pid, U32);
    if parsed.Some? {
      FilesVerdictIff(p.files, parsed.value, q, pid);
    }
  }

  lemma {:induction false} ProcessesSnoc(ps: seq<ProcessRecord>, q: Query, pid: nat)
    requires ps != []
    ensures var init, last := ps[..|ps| - 1], ps[|ps| - 1];
            && (AllReadable(ps, q) <==> AllReadable(init, q) && Readable(last, q))
            && (OneHolds(ps, q, pid) <==> OneHolds(init, q, pid) || Holds(last, q, pid))
  {
    var init, last := ps[..|ps| - 1], ps[|ps| - 1];
    assert ps == init + [last];
    assert last in ps && forall p :: p in ps <==> p in init || p == last;
  }

  lemma {:induction false} ProcessesVerdictIff(ps: seq<ProcessRecord>, q: Query, pid: nat)
    ensures ProcessesVerdict(ps, q).Some? <==> AllReadable(ps, q)
    ensures ProcessesVerdict(ps, q).Some? ==> (pid in ProcessesVerdict(ps, q).value <==> OneHolds(ps, q, pid))
  {
    if ps == [] {
    } else {
      var n := |ps| - 1;
      ProcessesVerdictIff(ps[..n], q, pid);
      ProcessVerdictIff(ps[n], q, pid);
      ProcessesSnoc(ps, q, pid);
    }
  }

  /** A listing is accepted exactly when every record of it can be read, and it
      names exactly the processes that hold an applicable socket. */
  lemma {:induction false} VerdictIff(l: Listing, q: Query, pid: nat)
    ensures Verdict(l, q).Some? <==> !Stray(l.preamble) && AllReadable(l.processes, q)
    ensures Verdict(l, q).Some? ==> (pid in Verdict(l, q).value <==> OneHolds(l.processes, q, pid))
  {
    StrayIff(l.preamble);
    ProcessesVerdictIff(l.processes, q, pid);
  }

  /** A text is read as a listing only when its last line is ended. */
  lemma {:induction false} TextVerdictIff(output: string, q: Query, pid: nat)
    ensures output == "" || output[|output| - 1] != '\n' ==> TextVerdict(output, q) == None
    ensures output != "" && output[|output| - 1] == '\n' ==>
              var l := Grouped(Split(output[..|output| - 1], '\n'));
              && (TextVerdict(output, q).Some? <==> !Stray(l.preamble) && AllReadable(l.processes, q))
              && (TextVerdict(output, q).Some? ==>
                    (pid in TextVerdict(output, q).value <==> OneHolds(l.processes, q, pid)))
  {
    if output != "" && output[|output| - 1] == '\n' {
      VerdictIff(Grouped(Split(output[..|output| - 1], '\n')), q, pid);
    }
  }
}
