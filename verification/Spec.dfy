/** The DB_SPECS grammar of internal/spec/spec.go: tokens, validation, dedupe and the
    per-server directory name.

    The standard library's IP parsing is the parameter `canon`: None for text that is no IP
    literal, otherwise the canonical text of the address. */
module Spec {
  import opened Results
  import opened Text

  const DEFAULT_PORT: nat := 5432
  const MAX_SERVER_DIR_LEN: nat := 255

  type Canon = string -> Option<string>

  datatype NameFault = EmptyName | LeadingDash | DotDot | BadCharacter

  /** Why a spec is invalid; the messages themselves are not modelled. */
  datatype Fault =
    | MissingBracket
    | MissingColon
    | BadShape
    | NotAnAddress
    | BadHost(why: NameFault)
    | BadPort
    | BadDBName(why: NameFault)
    | BadUser(why: NameFault)
    | HostTooLong
    | DuplicateKey

  datatype DBSpec = DBSpec(
    host: string, dbname: string, user: string, raw: string, port: nat, invalid: Option<Fault>, duplicate: bool)

  predicate IsAlnum(c: char) {
    'a' <= c <= 'z' || 'A' <= c <= 'Z' || '0' <= c <= '9'
  }

  predicate IsIdentifierChar(c: char) { IsAlnum(c) || c == '_' || c == '-' }

  predicate IsHostChar(c: char) { IsIdentifierChar(c) || c == '.' }

  predicate HasDotDot(v: string) {
    exists i :: 0 <= i < |v| - 1 && v[i] == '.' && v[i + 1] == '.'
  }

  function HostFault(v: string): Option<NameFault> {
    if v == "" then Some(EmptyName)
    else if v[0] == '-' then Some(LeadingDash)
    else if HasDotDot(v) then Some(DotDot)
    else if exists i :: 0 <= i < |v| && !IsHostChar(v[i]) then Some(BadCharacter)
    else None
  }

  function IdentifierFault(v: string): Option<NameFault> {
    if v == "" then Some(EmptyName)
    else if v[0] == '-' then Some(LeadingDash)
    else if HasDotDot(v) then Some(DotDot)
    else if exists i :: 0 <= i < |v| && !IsIdentifierChar(v[i]) then Some(BadCharacter)
    else None
  }

  /** Hexadecimal groups and dotted decimals. */
  predicate IsAddressChar(c: char) {
    '0' <= c <= '9' || 'a' <= c <= 'f' || c == ':' || c == '.'
  }

  /** What is known of the standard library's canonical address text. */
  ghost predicate Canonicalizes(canon: Canon) {
    forall text :: canon(text).Some? ==> IsCanonical(canon, canon(text).value)
  }

  ghost predicate IsCanonical(canon: Canon, c: string) {
    && c != ""
    && (forall i :: 0 <= i < |c| ==> IsAddressChar(c[i]))
    && canon(c) == Some(c)
    && (':' !in c ==> HostFault(c).None?)
  }

  /** The per-server directory: a host with ':' is prefixed with '@' and has its colons
      written as dashes. */
  function ServerDir(host: string, port: nat): string {
    if ':' in host then "@" + Replace(host, ':', '-') + "_" + Itoa(port) else host + "_" + Itoa(port)
  }

  datatype Split4 = Parts(host: string, port: string, dbname: string, user: string) | Unsplit(fault: Fault)

  /** The pieces after the host: an optional port, the database and the user. */
  function PartsOf(host: string, pieces: seq<string>): Split4 {
    if |pieces| == 2 then Parts(host, "", pieces[0], pieces[1])
    else if |pieces| == 3 then Parts(host, pieces[0], pieces[1], pieces[2])
    else Unsplit(BadShape)
  }

  function SplitFields(tok: string): Split4 {
    if tok != "" && tok[0] == '[' then
      var end := IndexOf(tok, ']');
      if end == |tok| then Unsplit(MissingBracket) else
      var host, rest := tok[1..end], tok[end + 1..];
      if rest == "" || rest[0] != ':' then Unsplit(MissingColon) else
      PartsOf(host, Split(rest[1..], ':'))
    else
      var parts := Split(tok, ':');
      PartsOf(parts[0], parts[1..])
  }

  datatype HostResult = Good(host: string) | Bad(fault: Fault)

  /** The stored host: the canonical text of a bracketed address, a plain host as it is. */
  function HostOf(canon: Canon, tok: string, text: string): HostResult {
    if tok != "" && tok[0] == '[' then
      if canon(text).None? then Bad(NotAnAddress) else Good(canon(text).value)
    else
      if HostFault(text).Some? then Bad(BadHost(HostFault(text).value)) else Good(text)
  }

  function PortOf(text: string): Option<nat> {
    if text == "" then Some(DEFAULT_PORT)
    else if Atoi(text).Some? && 1 <= Atoi(text).value <= 65535 then Some(Atoi(text).value)
    else None
  }

  /** What one token denotes. The fields accepted before the first fault stay filled. */
  function Parsed(canon: Canon, tok: string): DBSpec {
    var s0 := DBSpec("", "", "", tok, DEFAULT_PORT, None, false);
    match SplitFields(tok)
    case Unsplit(f) => s0.(invalid := Some(f))
    case Parts(hostText, portText, dbname, user) =>
      match HostOf(canon, tok, hostText)
      case Bad(f) => s0.(invalid := Some(f))
      case Good(host) =>
        var s1 := s0.(host := host);
        if PortOf(portText).None? then s1.(invalid := Some(BadPort)) else
        var s2 := s1.(port := PortOf(portText).value);
        if IdentifierFault(dbname).Some? then s2.(invalid := Some(BadDBName(IdentifierFault(dbname).value))) else
        var s3 := s2.(dbname := dbname);
        if IdentifierFault(user).Some? then s3.(invalid := Some(BadUser(IdentifierFault(user).value))) else
        var s4 := s3.(user := user);
        if |ServerDir(s4.host, s4.port)| > MAX_SERVER_DIR_LEN then s4.(invalid := Some(HostTooLong)) else s4
  }

  method ParseOne(canon: Canon, tok: string) returns (s: DBSpec)
    ensures s == Parsed(canon, tok)
  {
    s := DBSpec("", "", "", tok, DEFAULT_PORT, None, false);
    var fields := SplitFields(tok);
    if fields.Unsplit? {
      s := s.(invalid := Some(fields.fault));
      return;
    }
    if tok != "" && tok[0] == '[' {
      var ip := canon(fields.host);
      if ip.None? {
        s := s.(invalid := Some(NotAnAddress));
        return;
      }
      s := s.(host := ip.value);
    } else {
      var reason := HostFault(fields.host);
      if reason.Some? {
        s := s.(invalid := Some(BadHost(reason.value)));
        return;
      }
      s := s.(host := fields.host);
    }
    if fields.port != "" {
      var port := Atoi(fields.port);
      if port.None? || port.value < 1 || port.value > 65535 {
        s := s.(invalid := Some(BadPort));
        return;
      }
      s := s.(port := port.value);
    }
    var reason := IdentifierFault(fields.dbname);
    if reason.Some? {
      s := s.(invalid := Some(BadDBName(reason.value)));
      return;
    }
    s := s.(dbname := fields.dbname);
    reason := IdentifierFault(fields.user);
    if reason.Some? {
      s := s.(invalid := Some(BadUser(reason.value)));
      return;
    }
    s := s.(user := fields.user);
    if |ServerDir(s.host, s.port)| > MAX_SERVER_DIR_LEN {
      s := s.(invalid := Some(HostTooLong));
    }
  }

  predicate SameTarget(a: DBSpec, b: DBSpec) {
    a.host == b.host && a.port == b.port && a.dbname == b.dbname
  }

  /** Some earlier token that passes the grammar names the same target. */
  predicate Repeats(canon: Canon, tokens: seq<string>, i: nat)
    requires i < |tokens|
  {
    exists j :: 0 <= j < i && Parsed(canon, tokens[j]).invalid.None?
                && SameTarget(Parsed(canon, tokens[j]), Parsed(canon, tokens[i]))
  }

  /** The spec at position i: a token that passes the grammar is a duplicate exactly when
      an earlier such token names the same target. */
  function SpecAt(canon: Canon, tokens: seq<string>, i: nat): DBSpec
    requires i < |tokens|
  {
    var s := Parsed(canon, tokens[i]);
    if s.invalid.None? && Repeats(canon, tokens, i) then s.(invalid := Some(DuplicateKey), duplicate := true) else s
  }

  function ParsedTokens(canon: Canon, tokens: seq<string>): seq<DBSpec> {
    seq(|tokens|, i requires 0 <= i < |tokens| => SpecAt(canon, tokens, i))
  }

  /** The dedupe key of a spec. */
  function Key(s: DBSpec): string {
    JoinKey(s.host, Itoa(s.port), s.dbname)
  }

  lemma KeyInjective(a: DBSpec, b: DBSpec)
    ensures Key(a) == Key(b) <==> SameTarget(a, b)
  {
    if Key(a) == Key(b) {
      JoinKeyInjective(a.host, Itoa(a.port), a.dbname, b.host, Itoa(b.port), b.dbname);
      ItoaInjective(a.port, b.port);
    }
  }

  /** `seen` holds exactly the keys of the first i tokens that pass the grammar. */
  ghost predicate SeenUpTo(canon: Canon, tokens: seq<string>, i: nat, seen: set<string>)
    requires i <= |tokens|
  {
    forall key :: key in seen <==>
      exists j :: 0 <= j < i && Parsed(canon, tokens[j]).invalid.None? && Key(Parsed(canon, tokens[j])) == key
  }

  lemma SeenSkips(canon: Canon, tokens: seq<string>, i: nat, seen: set<string>)
    requires i < |tokens| && SeenUpTo(canon, tokens, i, seen) && Parsed(canon, tokens[i]).invalid.Some?
    ensures SeenUpTo(canon, tokens, i + 1, seen)
  {
    hide Parsed, Key;
  }

  lemma SeenDecides(canon: Canon, tokens: seq<string>, i: nat, seen: set<string>)
    requires i < |tokens| && SeenUpTo(canon, tokens, i, seen) && Parsed(canon, tokens[i]).invalid.None?
    ensures Key(Parsed(canon, tokens[i])) in seen <==> Repeats(canon, tokens, i)
    ensures SeenUpTo(canon, tokens, i + 1, seen + {Key(Parsed(canon, tokens[i]))})
  {
    hide Parsed, Key;
    forall j | 0 <= j < i
      ensures Key(Parsed(canon, tokens[j])) == Key(Parsed(canon, tokens[i]))
              <==> SameTarget(Parsed(canon, tokens[j]), Parsed(canon, tokens[i]))
    {
      KeyInjective(Parsed(canon, tokens[j]), Parsed(canon, tokens[i]));
    }
  }

  /** One spec per whitespace-separated token, in order. */
  method Parse(canon: Canon, raw: string) returns (specs: seq<DBSpec>)
    ensures specs == ParsedTokens(canon, Fields(raw))
  {
    hide Parsed, Key, Repeats, Fields;
    var tokens := Fields(raw);
    specs := [];
    var seen: set<string> := {};
    assert SeenUpTo(canon, tokens, 0, seen);
    hide SeenUpTo;
    for i := 0 to |tokens|
      invariant |specs| == i
      invariant forall k :: 0 <= k < i ==> specs[k] == SpecAt(canon, tokens, k)
      invariant SeenUpTo(canon, tokens, i, seen)
    {
      var s := ParseOne(canon, tokens[i]);
      if s.invalid.None? {
        SeenDecides(canon, tokens, i, seen);
        var key := Key(s);
        if key in seen {
          assert seen + {key} == seen;
          s := s.(invalid := Some(DuplicateKey), duplicate := true);
        } else {
          seen := seen + {key};
        }
      } else {
        SeenSkips(canon, tokens, i, seen);
      }
      specs := specs + [s];
    }
  }
}
