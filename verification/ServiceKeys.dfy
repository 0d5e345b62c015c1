/**
 Relay service keys: sanitising, printing and parsing
 (crates/pocox-core/src/service.rs, crates/pocox-account-proto/src/key.rs) and
 the per-account listing built on them (crates/pocox-backend/src/api.rs).
 */
module ServiceKeys {
  import opened Text

  // ---------- sanitising ----------

  const DEFAULT_NAME: string := "default"

  predicate Kept(c: char) { 'a' <= c <= 'z' || 'A' <= c <= 'Z' || '0' <= c <= '9' || c == '_' || c == '.' }

  /** `char::to_lowercase` as far as it matters here: it leaves these alone,
      and what it makes of any character is already lower case. */
  ghost predicate Lowers(lower: char -> string) {
    && (forall c :: (Kept(c) && !('A' <= c <= 'Z')) || c == '-' ==> lower(c) == [c])
    && (forall c, i :: 0 <= i < |lower(c)| ==> !('A' <= lower(c)[i] <= 'Z'))
  }

  function Lowered(s: string, lower: char -> string): string {
    if s == "" then "" else Lowered(s[..|s| - 1], lower) + lower(s[|s| - 1])
  }

  /** What the loop pushes: one dash for each run of dropped characters. */
  function Dashed(s: string): string {
    if s == "" then ""
    else
      var out, c := Dashed(s[..|s| - 1]), s[|s| - 1];
      if Kept(c) then out + [c]
      else if out != "" && out[|out| - 1] == '-' then out
      else out + ['-']
  }

  function WithoutLeadingDashes(s: string): string {
    if s != "" && s[0] == '-' then WithoutLeadingDashes(s[1..]) else s
  }

  function WithoutTrailingDashes(s: string): string {
    if s != "" && s[|s| - 1] == '-' then WithoutTrailingDashes(s[..|s| - 1]) else s
  }

  function OrDefault(s: string): string { if s == "" then DEFAULT_NAME else s }

  function Sanitized(raw: string, lower: char -> string): string {
    OrDefault(WithoutTrailingDashes(WithoutLeadingDashes(Dashed(Lowered(Trim(raw), lower)))))
  }

  /** `sanitize_component`. */
  method SanitizeComponent(raw: string, lower: char -> string) returns (r: string)
    ensures r == Sanitized(raw, lower)
  {
    var chars := Lowered(Trim(raw), lower);
    var out, lastDash := "", false;
    for i := 0 to |chars|
      invariant out == Dashed(chars[..i])
      invariant lastDash == (out != "" && out[|out| - 1] == '-')
    {
      assert chars[..i + 1][..i] == chars[..i];
      if Kept(chars[i]) {
        out := out + [chars[i]];
        lastDash := false;
      } else if !lastDash {
        out := out + ['-'];
        lastDash := true;
      }
    }
    assert chars[..|chars|] == chars;
    return OrDefault(WithoutTrailingDashes(WithoutLeadingDashes(out)));
  }

  // ---------- what sanitising means ----------

  /** Every dropped character read as a dash. */
  function Masked(s: string): (m: string)
    ensures |m| == |s|
    ensures forall i :: 0 <= i < |s| ==> m[i] == if Kept(s[i]) then s[i] else '-'
  {
    seq(|s|, i requires 0 <= i < |s| => if Kept(s[i]) then s[i] else '-')
  }

  function NonEmpty(parts: seq<string>): seq<string> {
    if parts == [] then []
    else NonEmpty(parts[..|parts| - 1]) + if parts[|parts| - 1] == "" then [] else [parts[|parts| - 1]]
  }

  /** The maximal runs of kept characters. */
  function Words(s: string): seq<string> { NonEmpty(Split(Masked(s), '-')) }

  lemma {:induction false} JoinSnoc(parts: seq<string>, last: string)
    requires parts != []
    ensures Join(parts + [last], '-') == Join(parts, '-') + ['-'] + last
  {
    var all := parts + [last];
    assert all[1..] == parts[1..] + [last];
    if |parts| > 1 {
      JoinSnoc(parts[1..], last);
      var x := parts[0] + ['-'];
      assert x + (Join(parts[1..], '-') + ['-'] + last) == (x + Join(parts[1..], '-')) + ['-'] + last;
    } else {
      assert all[1..] == [last];
    }
  }

  /** The ended words and the open one. */
  function Unfinished(ended: seq<string>, open: string): string {
    if ended == [] then open else Join(ended, '-') + ['-'] + open
  }

  lemma {:induction false} LeadingDashesKeepEnd(s: string, c: char)
    requires WithoutLeadingDashes(s) != "" || c != '-'
    ensures WithoutLeadingDashes(s + [c]) == WithoutLeadingDashes(s) + [c]
  {
    if s != "" && s[0] == '-' {
      assert (s + [c])[1..] == s[1..] + [c];
      LeadingDashesKeepEnd(s[1..], c);
    } else if s == "" {
      assert s + [c] == [c];
    }
  }

  lemma {:induction false} AllDashesDropped(s: string)
    requires WithoutLeadingDashes(s) == ""
    ensures WithoutLeadingDashes(s + ['-']) == "" && (s != "" ==> s[|s| - 1] == '-')
  {
    if s == "" {
      assert s + ['-'] == ['-'] && ['-'][1..] == "";
    } else {
      assert (s + ['-'])[1..] == s[1..] + ['-'];
      AllDashesDropped(s[1..]);
    }
  }

  lemma {:induction false} MaskedSnoc(s: string, c: char)
    ensures Masked(s + [c]) == Masked(s) + [if Kept(c) then c else '-']
  {
  }

  /** `out`, leading dashes dropped, is the words of `s`, the open one included. */
  predicate WordsSoFar(s: string, out: string) {
    WithoutLeadingDashes(out) == Unfinished(NonEmpty(EndedPieces(Masked(s), '-')), LastPiece(Masked(s), '-'))
  }

  /** The loop's output, leading dashes dropped, is the words so far. */
  lemma {:induction false} DashedWords(s: string)
    ensures WordsSoFar(s, Dashed(s))
  {
    if s == "" {
      assert Masked(s) == "";
    } else {
      var init, c := s[..|s| - 1], s[|s| - 1];
      DashedWords(init);
      assert s == init + [c];
      if Kept(c) {
        DashedKept(init, c);
      } else {
        DashedDropped(init, c);
      }
    }
  }

  lemma {:induction false} DashedKept(s: string, c: char)
    requires WordsSoFar(s, Dashed(s)) && Kept(c)
    ensures WordsSoFar(s + [c], Dashed(s) + [c])
  {
    MaskedSnoc(s, c);
    SplitExtend(Masked(s), '-', [c]);
    LeadingDashesKeepEnd(Dashed(s), c);
    KeptExtends(NonEmpty(EndedPieces(Masked(s), '-')), LastPiece(Masked(s), '-'), c);
  }

  lemma {:induction false} DashedDropped(s: string, c: char)
    requires WordsSoFar(s, Dashed(s)) && !Kept(c)
    ensures WordsSoFar(s + [c], WithDash(Dashed(s)))
  {
    var ended, open := EndedPieces(Masked(s), '-'), LastPiece(Masked(s), '-');
    MaskedSnoc(s, c);
    SplitEnd(Masked(s), '-');
    NonEmptySnoc(ended, open);
    JoinSplit(Masked(s), '-');
    DashStep(Dashed(s), NonEmpty(ended), open);
  }

  lemma {:induction false} NonEmptySnoc(ended: seq<string>, open: string)
    ensures NonEmpty(ended + [open]) == Ended(NonEmpty(ended), open)
  {
    assert (ended + [open])[..|ended|] == ended;
  }

  lemma {:induction false} KeptExtends(ended: seq<string>, open: string, c: char)
    ensures Unfinished(ended, open + [c]) == Unfinished(ended, open) + [c]
  {
    if ended != [] {
      assert Join(ended, '-') + ['-'] + (open + [c]) == Join(ended, '-') + ['-'] + open + [c];
    }
  }

  function Ended(ended: seq<string>, open: string): seq<string> { ended + if open == "" then [] else [open] }

  lemma {:induction false} LeadingDashesSuffix(s: string)
    ensures |WithoutLeadingDashes(s)| <= |s|
    ensures s[|s| - |WithoutLeadingDashes(s)|..] == WithoutLeadingDashes(s)
  {
    if s == "" || s[0] != '-' {
    } else {
      LeadingDashesSuffix(s[1..]);
    }
  }

  function WithDash(out: string): string {
    if out != "" && out[|out| - 1] == '-' then out else out + ['-']
  }

  /** A dropped character ends the open word, if there is one. */
  lemma {:induction false} DashStep(out: string, ended: seq<string>, open: string)
    requires WithoutLeadingDashes(out) == Unfinished(ended, open) && '-' !in open
    ensures WithoutLeadingDashes(WithDash(out)) == Unfinished(Ended(ended, open), "")
  {
    var w := Unfinished(ended, open);
    LeadingDashesSuffix(out);
    if w == "" {
      AllDashesDropped(out);
    } else if open == "" {
      assert w[|w| - 1] == '-' && out[|out| - 1] == '-';
      assert Ended(ended, open) == ended;
    } else {
      assert w[|w| - 1] == open[|open| - 1] && out[|out| - 1] == w[|w| - 1];
      LeadingDashesKeepEnd(out, '-');
      if ended == [] {
        assert Join([open], '-') == open;
      } else {
        JoinSnoc(ended, open);
      }
      assert Unfinished(Ended(ended, open), "") == w + ['-'] + "";
    }
  }

  predicate AreWords(words: seq<string>) {
    forall i :: 0 <= i < |words| ==> words[i] != "" && '-' !in words[i]
  }

  lemma {:induction false} NonEmptyWords(parts: seq<string>)
    requires forall i :: 0 <= i < |parts| ==> '-' !in parts[i]
    ensures AreWords(NonEmpty(parts))
  {
    if parts == [] {
    } else {
      NonEmptyWords(parts[..|parts| - 1]);
    }
  }

  lemma {:induction false} NonEmptyAll(parts: seq<string>)
    requires forall i :: 0 <= i < |parts| ==> parts[i] != ""
    ensures NonEmpty(parts) == parts
  {
    if parts == [] {
    } else {
      NonEmptyAll(parts[..|parts| - 1]);
    }
  }

  lemma {:induction false} WordsAreWords(s: string)
    ensures AreWords(Words(s))
  {
    JoinSplit(Masked(s), '-');
    NonEmptyWords(Split(Masked(s), '-'));
  }

  lemma {:induction false} JoinedEnd(words: seq<string>)
    requires AreWords(words) && words != []
    ensures Join(words, '-') != "" && Join(words, '-')[|Join(words, '-')| - 1] != '-'
  {
    if |words| == 1 {
    } else {
      JoinedEnd(words[1..]);
    }
  }

  /** Dropping trailing dashes leaves the words joined. */
  lemma {:induction false} Finished(ended: seq<string>, open: string)
    requires AreWords(Ended(ended, open))
    ensures WithoutTrailingDashes(Unfinished(ended, open)) == Join(Ended(ended, open), '-')
  {
    var w, all := Unfinished(ended, open), Ended(ended, open);
    if all == [] {
      assert w == "";
    } else {
      JoinedEnd(all);
      if open == "" {
        assert all == ended && w[..|w| - 1] == Join(ended, '-');
      } else if ended == [] {
        assert Join([open], '-') == open;
      } else {
        JoinSnoc(ended, open);
      }
    }
  }

  lemma {:induction false} StrippedIsWords(s: string)
    ensures WithoutTrailingDashes(WithoutLeadingDashes(Dashed(s))) == Join(Words(s), '-')
  {
    DashedWords(s);
    WordsAreWords(s);
    var parts := Split(Masked(s), '-');
    Finished(NonEmpty(parts[..|parts| - 1]), parts[|parts| - 1]);
  }

  /** A sanitised name is the words of its lower-cased text joined by single
      dashes, or the default name when there are none. */
  lemma {:induction false} SanitizedIsWords(raw: string, lower: char -> string)
    ensures var words := Words(Lowered(Trim(raw), lower));
            Sanitized(raw, lower) == if words == [] then DEFAULT_NAME else Join(words, '-')
  {
    var s := Lowered(Trim(raw), lower);
    StrippedIsWords(s);
    WordsAreWords(s);
    if Words(s) != [] {
      JoinedEnd(Words(s));
    }
  }

  // ---------- canonical names ----------

  predicate CanonChar(c: char) { Kept(c) && !('A' <= c <= 'Z') }

  /** Words of lower-case kept characters joined by single dashes. */
  predicate Canonical(s: string) {
    && s != "" && (forall i :: 0 <= i < |s| ==> CanonChar(s[i]) || s[i] == '-')
    && AreWords(Split(s, '-'))
  }

  lemma {:induction false} DashedChars(s: string)
    requires forall i :: 0 <= i < |s| ==> !('A' <= s[i] <= 'Z')
    ensures forall i :: 0 <= i < |Dashed(s)| ==> CanonChar(Dashed(s)[i]) || Dashed(s)[i] == '-'
  {
    if s == "" {
    } else {
      DashedChars(s[..|s| - 1]);
    }
  }

  lemma {:induction false} TrailingDashesPrefix(s: string)
    ensures WithoutTrailingDashes(s) <= s
  {
    if s == "" || s[|s| - 1] != '-' {
    } else {
      TrailingDashesPrefix(s[..|s| - 1]);
    }
  }

  lemma {:induction false} LoweredChars(s: string, lower: char -> string)
    requires Lowers(lower)
    ensures forall i :: 0 <= i < |Lowered(s, lower)| ==> !('A' <= Lowered(s, lower)[i] <= 'Z')
  {
    if s == "" {
    } else {
      LoweredChars(s[..|s| - 1], lower);
    }
  }

  lemma {:induction false} DefaultCanonical()
    ensures Canonical(DEFAULT_NAME)
  {
    SplitWhole(DEFAULT_NAME, '-');
  }

  lemma {:induction false} SanitizedChars(s: string)
    requires forall i :: 0 <= i < |s| ==> !('A' <= s[i] <= 'Z')
    ensures var r := WithoutTrailingDashes(WithoutLeadingDashes(Dashed(s)));
            forall i :: 0 <= i < |r| ==> CanonChar(r[i]) || r[i] == '-'
  {
    DashedChars(s);
    LeadingDashesSuffix(Dashed(s));
    TrailingDashesPrefix(WithoutLeadingDashes(Dashed(s)));
  }

  lemma {:induction false} WordsCanonical(words: seq<string>)
    requires AreWords(words) && words != []
    requires forall i :: 0 <= i < |Join(words, '-')| ==> CanonChar(Join(words, '-')[i]) || Join(words, '-')[i] == '-'
    ensures Canonical(Join(words, '-'))
  {
    JoinedEnd(words);
    SplitJoin(words, '-');
  }

  lemma {:induction false} SanitizedCanonical(raw: string, lower: char -> string)
    requires Lowers(lower)
    ensures Canonical(Sanitized(raw, lower))
  {
    var s := Lowered(Trim(raw), lower);
    SanitizedIsWords(raw, lower);
    if Words(s) == [] {
      DefaultCanonical();
    } else {
      LoweredChars(Trim(raw), lower);
      SanitizedChars(s);
      StrippedIsWords(s);
      WordsAreWords(s);
      WordsCanonical(Words(s));
    }
  }

  lemma {:induction false} LoweredSame(s: string, lower: char -> string)
    requires Lowers(lower) && forall i :: 0 <= i < |s| ==> CanonChar(s[i]) || s[i] == '-'
    ensures Lowered(s, lower) == s
  {
    if s == "" {
    } else {
      LoweredSame(s[..|s| - 1], lower);
      assert s[..|s| - 1] + [s[|s| - 1]] == s;
    }
  }

  /** Sanitising fixes exactly the canonical names, so it is idempotent. */
  lemma {:induction false} SanitizedFixedIff(s: string, lower: char -> string)
    requires Lowers(lower)
    ensures Sanitized(s, lower) == s <==> Canonical(s)
  {
    SanitizedCanonical(s, lower);
    if Canonical(s) {
      assert !IsWhitespace(s[0]) && !IsWhitespace(s[|s| - 1]);
      assert Trim(s) == s;
      LoweredSame(s, lower);
      assert Masked(s) == s;
      NonEmptyAll(Split(s, '-'));
      JoinSplit(s, '-');
      SanitizedIsWords(s, lower);
    }
  }

  lemma {:induction false} SanitizedIdempotent(raw: string, lower: char -> string)
    requires Lowers(lower)
    ensures Sanitized(Sanitized(raw, lower), lower) == Sanitized(raw, lower)
  {
    SanitizedCanonical(raw, lower);
    SanitizedFixedIff(Sanitized(raw, lower), lower);
  }

  // ---------- keys ----------

  datatype ServiceKind = App | Api | Acp | OpenCode | Meta | Host | Port | Unknown

  function Segment(kind: ServiceKind): string {
    match kind
    case App => "app"
    case Api => "api"
    case Acp => "acp"
    case OpenCode => "opencode"
    case Meta => "meta"
    case Host => "host"
    case Port => "port"
    case Unknown => "unknown"
  }

  function ParseKind(raw: string): Option<ServiceKind> {
    if raw == "app" then Some(App)
    else if raw == "api" then Some(Api)
    else if raw == "acp" then Some(Acp)
    else if raw == "opencode" then Some(OpenCode)
    else if raw == "meta" then Some(Meta)
    else if raw == "host" then Some(Host)
    else if raw == "port" then Some(Port)
    else None
  }

  lemma {:induction false} KindRoundTrip(kind: ServiceKind, raw: string)
    ensures ParseKind(raw) == Some(kind) <==> kind != Unknown && raw == Segment(kind)
  {
  }

  datatype ServiceId = ServiceId(device: string, kind: ServiceKind, name: string)
  datatype AccountId = AccountId(user: string, service: ServiceId)

  const SERVICE_PREFIX: string := "pcx"
  const ACCOUNT_PREFIX: string := "pcxu"

  /** `ServiceId::new`. */
  function NewService(device: string, kind: ServiceKind, name: string, lower: char -> string): ServiceId {
    ServiceId(Sanitized(device, lower), kind, Sanitized(name, lower))
  }

  /** `NamespacedServiceId::new`. */
  function NewAccount(user: string, service: ServiceId, lower: char -> string): AccountId {
    AccountId(Sanitized(user, lower), NewService(service.device, service.kind, service.name, lower))
  }

  /** `ServiceId::key`. */
  function ServiceKey(id: ServiceId): string {
    SERVICE_PREFIX + ":" + id.device + ":" + Segment(id.kind) + ":" + id.name
  }

  /** `NamespacedServiceId::key`. */
  function AccountKey(id: AccountId): string {
    ACCOUNT_PREFIX + ":" + id.user + ":" + id.service.device + ":" + Segment(id.service.kind) + ":" + id.service.name
  }

  /** `ServiceId::parse_key`. */
  function ParseServiceKey(key: string): Option<ServiceId> {
    var parts := Split(key, ':');
    if |parts| != 4 || parts[0] != SERVICE_PREFIX then None
    else match ParseKind(parts[2])
         case None => None
         case Some(kind) =>
           if parts[1] == "" || parts[3] == "" then None else Some(ServiceId(parts[1], kind, parts[3]))
  }

  /** `NamespacedServiceId::parse_key`. */
  function ParseAccountKey(key: string, lower: char -> string): Option<AccountId> {
    var parts := Split(key, ':');
    if |parts| != 5 || parts[0] != ACCOUNT_PREFIX then None
    else match ParseKind(parts[3])
         case None => None
         case Some(kind) =>
           if parts[1] == "" || parts[2] == "" || parts[4] == "" then None
           else if Sanitized(parts[1], lower) != parts[1] || Sanitized(parts[2], lower) != parts[2]
                   || Sanitized(parts[4], lower) != parts[4] then None
           else Some(AccountId(parts[1], ServiceId(parts[2], kind, parts[4])))
  }

  /** `user_prefix`. */
  function UserPrefix(user: string, lower: char -> string): string {
    ACCOUNT_PREFIX + ":" + Sanitized(user, lower) + ":"
  }

  predicate CanonicalAccount(id: AccountId) {
    && Canonical(id.user) && Canonical(id.service.device) && Canonical(id.service.name)
    && id.service.kind != Unknown
  }

  function Parts(id: AccountId): seq<string> {
    [ACCOUNT_PREFIX, id.user, id.service.device, Segment(id.service.kind), id.service.name]
  }

  lemma {:induction false} Join2(a: string, b: string)
    ensures Join([a, b], ':') == a + ":" + b
  {
    assert Join([b], ':') == b;
  }

  lemma {:induction false} JoinCons(a: string, rest: seq<string>)
    requires rest != []
    ensures Join([a] + rest, ':') == a + ":" + Join(rest, ':')
  {
    assert ([a] + rest)[1..] == rest;
  }

  lemma {:induction false} AccountKeyJoined(id: AccountId)
    ensures AccountKey(id) == Join(Parts(id), ':')
  {
    var kind := Segment(id.service.kind);
    Join2(kind, id.service.name);
    JoinCons(id.service.device, [kind, id.service.name]);
    JoinCons(id.user, [id.service.device, kind, id.service.name]);
    JoinCons(ACCOUNT_PREFIX, [id.user, id.service.device, kind, id.service.name]);
  }

  lemma {:induction false} SegmentPlain(kind: ServiceKind)
    ensures ':' !in Segment(kind)
  {
  }

  lemma {:induction false} AccountKeySplit(id: AccountId)
    requires ':' !in id.user && ':' !in id.service.device && ':' !in id.service.name
    ensures Split(AccountKey(id), ':') == Parts(id)
  {
    AccountKeyJoined(id);
    SegmentPlain(id.service.kind);
    SplitJoin(Parts(id), ':');
  }

  lemma {:induction false} CanonicalFixed(id: AccountId, lower: char -> string)
    requires Lowers(lower) && CanonicalAccount(id)
    ensures Sanitized(id.user, lower) == id.user && id.user != ""
    ensures Sanitized(id.service.device, lower) == id.service.device && id.service.device != ""
    ensures Sanitized(id.service.name, lower) == id.service.name && id.service.name != ""
    ensures ParseKind(Segment(id.service.kind)) == Some(id.service.kind)
  {
    KindRoundTrip(id.service.kind, Segment(id.service.kind));
    SanitizedFixedIff(id.user, lower);
    SanitizedFixedIff(id.service.device, lower);
    SanitizedFixedIff(id.service.name, lower);
  }

  lemma {:induction false} CanonicalPlain(s: string)
    requires Canonical(s)
    ensures ':' !in s
  {
  }

  lemma {:induction false} AccountKeyParses(id: AccountId, lower: char -> string)
    requires Lowers(lower) && CanonicalAccount(id)
    ensures ParseAccountKey(AccountKey(id), lower) == Some(id)
  {
    CanonicalPlain(id.user);
    CanonicalPlain(id.service.device);
    CanonicalPlain(id.service.name);
    AccountKeySplit(id);
    CanonicalFixed(id, lower);
    PartsParse(AccountKey(id), id, lower);
  }

  lemma {:induction false} PartsParse(key: string, id: AccountId, lower: char -> string)
    requires Split(key, ':') == Parts(id) && ParseKind(Segment(id.service.kind)) == Some(id.service.kind)
    requires id.user != "" && id.service.device != "" && id.service.name != ""
    requires Sanitized(id.user, lower) == id.user && Sanitized(id.service.device, lower) == id.service.device
    requires Sanitized(id.service.name, lower) == id.service.name
    ensures ParseAccountKey(key, lower) == Some(id)
  {
  }

  /** The segments of an accepted key are the id's. */
  lemma {:induction false} AcceptedParts(key: string, lower: char -> string)
    requires ParseAccountKey(key, lower).Some?
    ensures var id := ParseAccountKey(key, lower).value;
            Split(key, ':') == Parts(id) && id.service.kind != Unknown
  {
    var parts := Split(key, ':');
    AcceptedKind(parts[3]);
    FiveParts(parts);
  }

  lemma {:induction false} AcceptedKind(raw: string)
    requires ParseKind(raw).Some?
    ensures ParseKind(raw).value != Unknown && Segment(ParseKind(raw).value) == raw
  {
    KindRoundTrip(ParseKind(raw).value, raw);
  }

  lemma {:induction false} FiveParts(parts: seq<string>)
    requires |parts| == 5
    ensures parts == [parts[0], parts[1], parts[2], parts[3], parts[4]]
  {
  }

  lemma {:induction false} AcceptedCanonical(key: string, lower: char -> string)
    requires Lowers(lower) && ParseAccountKey(key, lower).Some?
    ensures var id := ParseAccountKey(key, lower).value;
            Canonical(id.user) && Canonical(id.service.device) && Canonical(id.service.name)
  {
    var id := ParseAccountKey(key, lower).value;
    SanitizedFixedIff(id.user, lower);
    SanitizedFixedIff(id.service.device, lower);
    SanitizedFixedIff(id.service.name, lower);
  }

  lemma {:induction false} AccountKeyPrints(key: string, lower: char -> string)
    requires Lowers(lower) && ParseAccountKey(key, lower).Some?
    ensures var id := ParseAccountKey(key, lower).value; CanonicalAccount(id) && AccountKey(id) == key
  {
    AcceptedParts(key, lower);
    AcceptedCanonical(key, lower);
    AccountKeyJoined(ParseAccountKey(key, lower).value);
    JoinSplit(key, ':');
  }

  /** Printing and parsing are inverse: a key is read as an id exactly when
      the id is canonical, of a known kind, and prints as that key. */
  lemma {:induction false} AccountKeyIff(key: string, id: AccountId, lower: char -> string)
    requires Lowers(lower)
    ensures ParseAccountKey(key, lower) == Some(id) <==> CanonicalAccount(id) && key == AccountKey(id)
  {
    if CanonicalAccount(id) {
      AccountKeyParses(id, lower);
    }
    if ParseAccountKey(key, lower).Some? {
      AccountKeyPrints(key, lower);
    }
  }

  lemma {:induction false} ServiceKeyJoined(id: ServiceId)
    ensures ServiceKey(id) == Join([SERVICE_PREFIX, id.device, Segment(id.kind), id.name], ':')
  {
    var kind := Segment(id.kind);
    Join2(kind, id.name);
    JoinCons(id.device, [kind, id.name]);
    JoinCons(SERVICE_PREFIX, [id.device, kind, id.name]);
  }

  /** A device key is read as an id exactly when it prints as that key and
      its segments are not empty: here they need not be canonical. */
  lemma {:induction false} ServiceKeyIff(key: string, id: ServiceId)
    ensures ParseServiceKey(key) == Some(id) <==>
            && id.device != "" && id.name != "" && ':' !in id.device && ':' !in id.name
            && id.kind != Unknown && key == ServiceKey(id)
  {
    var parts, own := Split(key, ':'), [SERVICE_PREFIX, id.device, Segment(id.kind), id.name];
    ServiceKeyJoined(id);
    SegmentPlain(id.kind);
    if ParseServiceKey(key) == Some(id) {
      KindRoundTrip(id.kind, parts[2]);
      JoinSplit(key, ':');
      assert parts == own;
    } else if ':' !in id.device && ':' !in id.name && key == ServiceKey(id) {
      SplitJoin(own, ':');
      KindRoundTrip(id.kind, parts[2]);
    }
  }

  /** Whatever strings an id was built from, its key reads back as the id. */
  lemma {:induction false} NewAccountParses(user: string, service: ServiceId, lower: char -> string)
    requires Lowers(lower) && service.kind != Unknown
    ensures var id := NewAccount(user, service, lower); ParseAccountKey(AccountKey(id), lower) == Some(id)
  {
    var id := NewAccount(user, service, lower);
    SanitizedCanonical(user, lower);
    SanitizedCanonical(service.device, lower);
    SanitizedCanonical(service.name, lower);
    AccountKeyIff(AccountKey(id), id, lower);
  }

  /** A key is inside a user's prefix exactly when it was built for that user. */
  lemma {:induction false} PrefixIff(user: string, service: ServiceId, other: string, lower: char -> string)
    requires Lowers(lower)
    ensures UserPrefix(other, lower) <= AccountKey(NewAccount(user, service, lower))
       <==> Sanitized(user, lower) == Sanitized(other, lower)
  {
    var u, o := Sanitized(user, lower), Sanitized(other, lower);
    var id := NewAccount(user, service, lower);
    SanitizedCanonical(user, lower);
    SanitizedCanonical(other, lower);
    AccountKeyUnder(id);
    SegmentPrefix(u, KeyRest(id), o);
    HeadPrefix(ACCOUNT_PREFIX + ":", o + ":", u + ":" + KeyRest(id));
    assert UserPrefix(other, lower) == ACCOUNT_PREFIX + ":" + (o + ":");
  }

  function KeyRest(id: AccountId): string {
    id.service.device + ":" + Segment(id.service.kind) + ":" + id.service.name
  }

  lemma {:induction false} AccountKeyUnder(id: AccountId)
    ensures AccountKey(id) == ACCOUNT_PREFIX + ":" + (id.user + ":" + KeyRest(id))
  {
  }

  lemma {:induction false} HeadPrefix(head: string, a: string, b: string)
    ensures head + a <= head + b <==> a <= b
  {
    if head + a <= head + b {
      assert (head + b)[..|head + a|] == head + a;
      assert a == (head + a)[|head|..] && b[..|a|] == (head + b)[..|head + a|][|head|..];
    }
  }

  lemma {:induction false} ConsPrefix(t: string, s: string)
    requires t != "" && s != ""
    ensures t <= s <==> t[0] == s[0] && t[1..] <= s[1..]
  {
    assert t == [t[0]] + t[1..] && s == [s[0]] + s[1..];
    HeadPrefix([t[0]], t[1..], s[1..]);
  }

  lemma {:induction false} SegmentPrefix(u: string, rest: string, o: string)
    requires ':' !in u && ':' !in o
    ensures o + ":" <= u + ":" + rest <==> u == o
  {
    var s, t := u + ":" + rest, o + ":";
    ConsPrefix(t, s);
    if u == "" {
      assert t == (if o == "" then ":" else t);
      assert s[0] == ':';
    } else if o == "" {
      assert s[0] == u[0];
    } else {
      assert s[1..] == u[1..] + ":" + rest && t[1..] == o[1..] + ":" && s[0] == u[0] && t[0] == o[0];
      SegmentPrefix(u[1..], rest, o[1..]);
      assert u == [u[0]] + u[1..] && o == [o[0]] + o[1..];
    }
  }

  // ---------- the listing ----------

  datatype OptIn = OptIn(acp: bool, opencode: bool)
  datatype Record = Record(space: nat, name: string)

  predicate Surfaced(kind: ServiceKind, optIn: OptIn) {
    match kind
    case App => true
    case Api => true
    case Acp => optIn.acp
    case OpenCode => optIn.opencode
    case _ => false
  }

  /** One record through the listing's filters. */
  function Entry(svc: Record, space: nat, user: string, optIn: OptIn, lower: char -> string): Option<ServiceId> {
    if svc.space != space || !(UserPrefix(user, lower) <= svc.name) then None
    else match ParseAccountKey(svc.name, lower)
         case None => None
         case Some(id) => if Surfaced(id.service.kind, optIn) then Some(id.service) else None
  }

  /** `own_services`. */
  function OwnServices(all: seq<Record>, space: nat, user: string, optIn: OptIn,
                       lower: char -> string): seq<ServiceId> {
    if all == [] then []
    else
      OwnServices(all[..|all| - 1], space, user, optIn, lower)
      + match Entry(all[|all| - 1], space, user, optIn, lower)
        case None => []
        case Some(e) => [e]
  }

  /** The key `deregister_service` builds from what a client sends back. */
  function RebuiltKey(user: string, e: ServiceId, lower: char -> string): string {
    AccountKey(NewAccount(user, NewService(e.device, e.kind, e.name, lower), lower))
  }

  /** A record is listed as an entry exactly when it lies in the account's own
      namespace, is of a surfaced kind, and its name is the key that
      deregistering that canonical entry would retire. */
  lemma {:induction false} EntryIff(svc: Record, space: nat, user: string, optIn: OptIn, lower: char -> string,
                                    e: ServiceId)
    requires Lowers(lower)
    ensures Entry(svc, space, user, optIn, lower) == Some(e) <==>
            && svc.space == space
            && (e.kind == App || e.kind == Api || (e.kind == Acp && optIn.acp)
                || (e.kind == OpenCode && optIn.opencode))
            && Canonical(e.device) && Canonical(e.name) && svc.name == RebuiltKey(user, e, lower)
  {
    var u := Sanitized(user, lower);
    SanitizedCanonical(user, lower);
    SanitizedFixedIff(e.device, lower);
    SanitizedFixedIff(e.name, lower);
    var id := AccountId(u, e);
    AccountKeyIff(svc.name, id, lower);
    if Canonical(e.device) && Canonical(e.name) {
      assert NewAccount(user, NewService(e.device, e.kind, e.name, lower), lower) == id;
      PrefixIff(user, e, user, lower);
    }
    if Entry(svc, space, user, optIn, lower) == Some(e) {
      var parsed := ParseAccountKey(svc.name, lower).value;
      AccountKeyIff(svc.name, parsed, lower);
      SanitizedFixedIff(parsed.user, lower);
      assert NewAccount(parsed.user, e, lower) == parsed;
      PrefixIff(parsed.user, e, user, lower);
    }
  }

  /** ... which is the account's prefix, the device, the kind and the name. */
  lemma {:induction false} RebuiltKeyPrints(user: string, e: ServiceId, lower: char -> string)
    requires Lowers(lower) && Canonical(e.device) && Canonical(e.name)
    ensures RebuiltKey(user, e, lower)
         == "pcxu:" + Sanitized(user, lower) + ":" + e.device + ":" + Segment(e.kind) + ":" + e.name
  {
    SanitizedFixedIff(e.device, lower);
    SanitizedFixedIff(e.name, lower);
    var id := NewAccount(user, NewService(e.device, e.kind, e.name, lower), lower);
    assert id == AccountId(Sanitized(user, lower), ServiceId(e.device, e.kind, e.name));
    KeysPrint(Sanitized(user, lower), e.device, e.kind, e.name);
  }

  /** Some record is the entry's: it lies in the account's own namespace under
      the key that deregistering this canonical, surfaced entry would retire. */
  predicate Registered(e: ServiceId, all: seq<Record>, space: nat, user: string, optIn: OptIn, lower: char -> string) {
    && Surfaced(e.kind, optIn) && Canonical(e.device) && Canonical(e.name)
    && Record(space, RebuiltKey(user, e, lower)) in all
  }

  lemma {:induction false} OneMoreEntry(e: ServiceId, init: seq<Record>, last: Record, space: nat, user: string,
                                        optIn: OptIn, lower: char -> string)
    ensures e in OwnServices(init + [last], space, user, optIn, lower) <==>
            e in OwnServices(init, space, user, optIn, lower) || Entry(last, space, user, optIn, lower) == Some(e)
  {
    assert (init + [last])[..|init|] == init;
  }

  lemma {:induction false} OneMoreRecord(e: ServiceId, init: seq<Record>, last: Record, space: nat, user: string,
                                         optIn: OptIn, lower: char -> string)
    requires Lowers(lower)
    ensures Registered(e, init + [last], space, user, optIn, lower) <==>
            Registered(e, init, space, user, optIn, lower) || Entry(last, space, user, optIn, lower) == Some(e)
  {
    EntryIff(last, space, user, optIn, lower, e);
  }

  /** Listed exactly when registered. */
  predicate ListedRight(e: ServiceId, all: seq<Record>, space: nat, user: string, optIn: OptIn, lower: char -> string) {
    e in OwnServices(all, space, user, optIn, lower) <==> Registered(e, all, space, user, optIn, lower)
  }

  lemma {:induction false} OneMoreListed(e: ServiceId, init: seq<Record>, last: Record, space: nat, user: string,
                                         optIn: OptIn, lower: char -> string)
    requires Lowers(lower) && ListedRight(e, init, space, user, optIn, lower)
    ensures ListedRight(e, init + [last], space, user, optIn, lower)
  {
    OneMoreEntry(e, init, last, space, user, optIn, lower);
    OneMoreRecord(e, init, last, space, user, optIn, lower);
  }

  lemma {:induction false} ListedIff(e: ServiceId, all: seq<Record>, space: nat, user: string, optIn: OptIn,
                                     lower: char -> string)
    requires Lowers(lower)
    ensures ListedRight(e, all, space, user, optIn, lower)
  {
    var holds := list => ListedRight(e, list, space, user, optIn, lower);
    forall init, last | holds(init) ensures holds(init + [last]) {
      OneMoreListed(e, init, last, space, user, optIn, lower);
    }
    ByLast(all, holds);
  }

  /** The listing holds exactly the entries of the matching records. */
  lemma {:induction false} OwnServicesExact(all: seq<Record>, space: nat, user: string, optIn: OptIn,
                                            lower: char -> string)
    requires Lowers(lower)
    ensures forall e :: e in OwnServices(all, space, user, optIn, lower) <==>
                        Registered(e, all, space, user, optIn, lower)
  {
    forall e ensures e in OwnServices(all, space, user, optIn, lower) <==>
                     Registered(e, all, space, user, optIn, lower)
    {
      ListedIff(e, all, space, user, optIn, lower);
    }
  }

  // ---------- the texts themselves ----------

  /** The names of the kinds, on both sides. */
  lemma {:induction false} KindsNamed(raw: string)
    ensures ParseKind(raw) ==
            if raw == "app" then Some(App) else if raw == "api" then Some(Api) else if raw == "acp" then Some(Acp)
            else if raw == "opencode" then Some(OpenCode) else if raw == "meta" then Some(Meta)
            else if raw == "host" then Some(Host) else if raw == "port" then Some(Port) else None
    ensures Segment(App) == "app" && Segment(Api) == "api" && Segment(Acp) == "acp" && Segment(OpenCode) == "opencode"
    ensures Segment(Meta) == "meta" && Segment(Host) == "host" && Segment(Port) == "port"
    ensures Segment(Unknown) == "unknown"
  {
  }

  /** A device's key and an account's, printed. */
  lemma {:induction false} KeysPrint(user: string, device: string, kind: ServiceKind, name: string)
    ensures ServiceKey(ServiceId(device, kind, name)) == "pcx:" + device + ":" + Segment(kind) + ":" + name
    ensures AccountKey(AccountId(user, ServiceId(device, kind, name)))
         == "pcxu:" + user + ":" + device + ":" + Segment(kind) + ":" + name
  {
  }

  /** The canonical names: runs of lower-case letters, digits, underscores and
      dots, joined by single dashes. */
  lemma {:induction false} CanonicalIff(s: string)
    ensures Canonical(s) <==>
            && s != "" && s[0] != '-' && s[|s| - 1] != '-'
            && (forall i :: 0 <= i < |s| ==>
                  'a' <= s[i] <= 'z' || '0' <= s[i] <= '9' || s[i] == '_' || s[i] == '.' || s[i] == '-')
            && Spaced(s)
  {
    SplitNonEmpty(s);
    PiecesPlain(s, '-');
    if s != "" && s[|s| - 1] != '-' && s[0] != '-' {
      var parts := Split(s, '-');
      assert AreWords(parts) <==> parts[0] != "" && AllNonEmpty(parts[1..]) by {
        assert forall i :: 0 <= i < |parts[1..]| ==> parts[1..][i] == parts[i + 1];
      }
    } else if s != "" {
      assert s[0] == '-' ==> Split(s, '-')[0] == "";
    }
  }

  /** No dash is followed by another, or by nothing. */
  predicate Spaced(s: string) { forall i :: 0 <= i < |s| && s[i] == '-' ==> i + 1 < |s| && s[i + 1] != '-' }

  predicate AllNonEmpty(parts: seq<string>) { forall i :: 0 <= i < |parts| ==> parts[i] != "" }

  lemma {:induction false} SplitNonEmpty(s: string)
    ensures Split(s, '-')[0] != "" <==> s != "" && s[0] != '-'
    ensures AllNonEmpty(Split(s, '-')[1..]) <==> Spaced(s)
  {
    if s == "" {
    } else {
      var t := s[1..];
      SplitNonEmpty(t);
      var parts, rest := Split(s, '-'), Split(t, '-');
      assert Spaced(s) <==> Spaced(t) && (s[0] == '-' ==> t != "" && t[0] != '-') by {
        assert forall i :: 0 <= i < |t| ==> t[i] == s[i + 1];
      }
      if s[0] == '-' {
        assert parts[1..] == rest;
        assert AllNonEmpty(rest) <==> rest[0] != "" && AllNonEmpty(rest[1..]) by {
          assert forall i :: 0 <= i < |rest[1..]| ==> rest[1..][i] == rest[i + 1];
        }
      } else {
        assert parts[1..] == rest[1..];
      }
    }
  }

  /** An empty name is the default. */
  lemma {:induction false} NothingKept(lower: char -> string)
    ensures Sanitized("", lower) == "default"
  {
  }
}
