/** The DB_SPECS grammar character by character, and that the parser of internal/spec/spec.go
    accepts exactly its sentences, with exactly their meaning, and says of any other token which
    part is wrong. */
module Grammar {
  import opened Results
  import opened Text
  import opened Spec
  import opened SpecLaws

  // The parts of a token, in literal characters.

  predicate IdentifierLetter(c: char) {
    'a' <= c <= 'z' || 'A' <= c <= 'Z' || '0' <= c <= '9' || c == '_' || c == '-'
  }

  /** A database or user name: never empty, and never mistaken for a flag. */
  predicate IsIdentifier(v: string) {
    v != "" && v[0] != '-' && forall i :: 0 <= i < |v| ==> IdentifierLetter(v[i])
  }

  /** A host name or IPv4 address: dots are allowed, but never two in a row. */
  predicate IsPlainHost(v: string) {
    && v != "" && v[0] != '-'
    && (forall i :: 0 <= i < |v| ==> IdentifierLetter(v[i]) || v[i] == '.')
    && (forall i :: 0 <= i < |v| - 1 ==> v[i] != '.' || v[i + 1] != '.')
  }

  predicate AreDigits(v: string) {
    v != "" && forall i :: 0 <= i < |v| ==> '0' <= v[i] <= '9'
  }

  /** A written number: digits, perhaps after a plus sign, in any number of leading zeros. */
  ghost predicate WritesNumber(text: string, n: nat) {
    exists sign: string, digits: string ::
      (sign == "" || sign == "+") && AreDigits(digits) && text == sign + digits && Value(digits) == n
  }

  /** What decimal digits are worth, read from the left. */
  function Value(digits: string): nat
    requires forall i :: 0 <= i < |digits| ==> '0' <= digits[i] <= '9'
  {
    ValueFrom(0, digits)
  }

  function ValueFrom(so: nat, digits: string): nat
    requires forall i :: 0 <= i < |digits| ==> '0' <= digits[i] <= '9'
    decreases |digits|
  {
    if digits == "" then so else ValueFrom(10 * so + (digits[0] as int - 48), digits[1..])
  }

  /** An omitted or empty port is 5432; a written one lies between 1 and 65535. */
  ghost predicate WritesPort(text: string, port: int) {
    if text == "" then port == 5432 else 1 <= port <= 65535 && WritesNumber(text, port)
  }

  ghost predicate IsPort(text: string) {
    exists port: nat :: WritesPort(text, port)
  }

  function DirectoryLength(host: string, port: nat): nat {
    |host| + 1 + |Itoa(port)| + (if ':' in host then 1 else 0)
  }

  /** A spelling and the spec it denotes. */
  ghost predicate Denotes(canon: Canon, w: Spelling, s: DBSpec) {
    && (if w.bracketed then ']' !in w.host && canon(w.host) == Some(s.host)
        else IsPlainHost(w.host) && s.host == w.host)
    && WritesPort(if w.port.Some? then w.port.value else "", s.port)
    && IsIdentifier(w.dbname) && s.dbname == w.dbname
    && IsIdentifier(w.user) && s.user == w.user
    && DirectoryLength(s.host, s.port) <= 255
    && s.raw == Spell(w) && s.invalid.None? && !s.duplicate
  }

  // The parser's checks are these.

  lemma IdentifierIff(v: string)
    ensures IdentifierFault(v).None? <==> IsIdentifier(v)
  {
    assert forall c: char :: IsIdentifierChar(c) <==> IdentifierLetter(c);
  }

  lemma HostIff(v: string)
    ensures HostFault(v).None? <==> IsPlainHost(v)
  {
    assert forall c: char :: IsHostChar(c) <==> IdentifierLetter(c) || c == '.';
  }

  lemma {:induction false} ValueFromLast(so: nat, digits: string, last: string)
    requires AreDigits(last) && |last| == 1
    requires forall i :: 0 <= i < |digits| ==> '0' <= digits[i] <= '9'
    ensures ValueFrom(so, digits + last) == 10 * ValueFrom(so, digits) + (last[0] as int - 48)
    decreases |digits|
  {
    if digits == "" {
      assert digits + last == last && last[1..] == "";
    } else {
      assert (digits + last)[1..] == digits[1..] + last;
      ValueFromLast(10 * so + (digits[0] as int - 48), digits[1..], last);
    }
  }

  lemma {:induction false} ValueIs(digits: string)
    requires forall i :: 0 <= i < |digits| ==> '0' <= digits[i] <= '9'
    ensures AllDigits(digits) && DigitsValue(digits) == Value(digits)
  {
    assert AllDigits(digits);
    if digits != "" {
      var front, last := digits[..|digits| - 1], digits[|digits| - 1..];
      ValueIs(front);
      ValueFromLast(0, front, last);
      assert front + last == digits;
    }
  }

  /** A positive number is read from a text exactly when the text writes it. */
  lemma ReadsWhatIsWritten(text: string, n: nat)
    requires 1 <= n <= 65535
    ensures Atoi(text) == Some(n) <==> WritesNumber(text, n)
  {
    hide DigitsValue, ValueFrom, AllDigits, Atoi;
    if Atoi(text) == Some(n) {
      var sign, digits := AtoiReadsOnly(text);
      AtoiReads(sign, digits);
      ValueIs(digits);
      assert sign != "-" && AreDigits(digits) && Value(digits) == n;
    }
    if WritesNumber(text, n) {
      var sign: string, digits: string :|
        (sign == "" || sign == "+") && AreDigits(digits) && text == sign + digits && Value(digits) == n;
      AtoiReads(sign, digits);
      ValueIs(digits);
    }
  }

  lemma PortIff(text: string, port: nat)
    ensures PortOf(text) == Some(port) <==> WritesPort(text, port)
  {
    hide Atoi, WritesNumber;
    if text != "" && 1 <= port <= 65535 {
      ReadsWhatIsWritten(text, port);
    }
  }

  lemma IsPortIff(text: string)
    ensures IsPort(text) <==> PortOf(text).Some?
    ensures PortOf(text).Some? ==> WritesPort(text, PortOf(text).value)
  {
    hide PortOf, WritesPort;
    forall n: nat
      ensures PortOf(text) == Some(n) <==> WritesPort(text, n)
    {
      PortIff(text, n);
    }
    if PortOf(text).Some? {
      assert WritesPort(text, PortOf(text).value);
    }
  }

  lemma DirectoryLengthIs(host: string, port: nat)
    ensures |ServerDir(host, port)| == DirectoryLength(host, port)
  {
  }

  /** The directory of a plain host is the host, an underscore and the port; an address gets an
      '@' in front and dashes for its colons. */
  lemma DirectoryIs(host: string, port: nat)
    ensures ':' !in host ==> ServerDir(host, port) == host + "_" + Itoa(port)
    ensures ':' in host ==>
      exists dashed: string ::
        && ServerDir(host, port) == "@" + dashed + "_" + Itoa(port) && |dashed| == |host|
        && forall i :: 0 <= i < |host| ==> dashed[i] == if host[i] == ':' then '-' else host[i]
  {
    if ':' in host {
      assert ServerDir(host, port) == "@" + Replace(host, ':', '-') + "_" + Itoa(port);
    }
  }

  /** What a spelling looks like. */
  lemma SpellIs(w: Spelling)
    ensures Spell(w) == (if w.bracketed then "[" + w.host + "]" else w.host)
                        + (if w.port.Some? then ":" + w.port.value else "") + ":" + w.dbname + ":" + w.user
  {
    hide JoinWith;
    var tail := Tail(w);
    JoinOnce(w.host, tail, ':');
    TailIs(w);
    var body := (if w.port.Some? then w.port.value + ":" else "") + (w.dbname + ":" + w.user);
    assert (if w.port.Some? then ":" + w.port.value else "") + ":" + w.dbname + ":" + w.user == ":" + body;
    assert [w.host] + tail == [w.host] + Tail(w);
  }

  lemma TailIs(w: Spelling)
    ensures JoinWith(Tail(w), ':') == (if w.port.Some? then w.port.value + ":" else "") + (w.dbname + ":" + w.user)
  {
    hide JoinWith;
    JoinOnce(w.dbname, [w.user], ':');
    JoinOnce(w.user, [], ':');
    assert [w.dbname] + [w.user] == [w.dbname, w.user];
    if w.port.Some? {
      JoinOnce(w.port.value, [w.dbname, w.user], ':');
      assert Tail(w) == [w.port.value] + [w.dbname, w.user];
    } else {
      assert Tail(w) == [w.dbname, w.user];
    }
  }

  lemma AdmittedDenotes(canon: Canon, w: Spelling)
    requires Admitted(canon, w)
    ensures Denotes(canon, w, Meaning(canon, w))
  {
    hide IdentifierFault, HostFault, PortOf, WritesNumber, ServerDir, Spell, IsPlainHost, IsIdentifier;
    IdentifierIff(w.dbname);
    IdentifierIff(w.user);
    HostIff(w.host);
    var s := Meaning(canon, w);
    PortIff(PortText(w), s.port);
    DirectoryLengthIs(s.host, s.port);
  }

  lemma DenotedIsAdmitted(canon: Canon, w: Spelling, s: DBSpec)
    requires Denotes(canon, w, s)
    ensures Admitted(canon, w) && Meaning(canon, w) == s
  {
    IdentifierIff(w.dbname);
    IdentifierIff(w.user);
    HostIff(w.host);
    PortIff(PortText(w), s.port);
    PortHasNoColon(PortText(w), s.port);
    DirectoryLengthIs(s.host, s.port);
    hide IdentifierFault, HostFault, PortOf, WritesPort, ServerDir, Spell, IsPlainHost, IsIdentifier;
  }

  lemma PortHasNoColon(text: string, port: int)
    requires WritesPort(text, port)
    ensures ':' !in text
  {
    if text != "" {
      var sign: string, digits: string :|
        (sign == "" || sign == "+") && AreDigits(digits) && text == sign + digits && Value(digits) == port;
      forall i | 0 <= i < |text|
        ensures text[i] != ':'
      {
        assert i < |sign| || text[i] == digits[i - |sign|];
      }
    }
  }

  /** The accepted language and its meaning: a token is accepted as s if and only if some
      spelling of it denotes s. */
  lemma AcceptsExactly(canon: Canon, tok: string, s: DBSpec)
    ensures Parsed(canon, tok) == s && s.invalid.None?
            <==> exists w: Spelling :: Spell(w) == tok && Denotes(canon, w, s)
  {
    hide Parsed, Spell, Denotes, Admitted, Meaning;
    if Parsed(canon, tok) == s && s.invalid.None? {
      var w := AcceptedSpelling(canon, tok);
      SpellingAccepted(canon, w);
      AdmittedDenotes(canon, w);
      assert Spell(w) == tok && Denotes(canon, w, s);
    }
    if w: Spelling :| Spell(w) == tok && Denotes(canon, w, s) {
      DenotedIsAdmitted(canon, w, s);
      SpellingAccepted(canon, w);
      DenotedIsValid(canon, w, s);
    }
  }

  lemma DenotedIsValid(canon: Canon, w: Spelling, s: DBSpec)
    requires Denotes(canon, w, s)
    ensures s.invalid.None?
  {
  }

  // What a rejected token says.

  /** A token that has the shape of fields, whatever they hold. */
  predicate HasShape(w: Spelling) {
    && ':' !in w.dbname && ':' !in w.user && (w.port.Some? ==> ':' !in w.port.value)
    && if w.bracketed then ']' !in w.host else ':' !in w.host && (w.host != "" ==> w.host[0] != '[')
  }

  lemma ShapeSplits(w: Spelling)
    requires HasShape(w)
    ensures SplitFields(Spell(w)) == Parts(w.host, PortText(w), w.dbname, w.user)
    ensures Spell(w) != "" && (Spell(w)[0] == '[' <==> w.bracketed)
  {
    hide Split, JoinWith;
    if w.bracketed {
      SplitOfJoin(Tail(w), ':');
      SplitOfBracketed(w.host, JoinWith(Tail(w), ':'));
    } else {
      JoinOnce(w.host, Tail(w), ':');
      SplitOfJoin([w.host] + Tail(w), ':');
    }
  }

  /** Why a name is no identifier, first reason first. */
  predicate WrongName(v: string, why: NameFault, dots: bool) {
    match why
    case EmptyName => v == ""
    case LeadingDash => v != "" && v[0] == '-'
    case DotDot => v != "" && v[0] != '-' && exists i :: 0 <= i < |v| - 1 && v[i] == '.' && v[i + 1] == '.'
    case BadCharacter =>
      && v != "" && v[0] != '-' && (forall i :: 0 <= i < |v| - 1 ==> v[i] != '.' || v[i + 1] != '.')
      && exists i :: 0 <= i < |v| && !IdentifierLetter(v[i]) && (v[i] != '.' || !dots)
  }

  lemma NameFaults(v: string)
    ensures IdentifierFault(v).Some? ==> WrongName(v, IdentifierFault(v).value, false)
    ensures HostFault(v).Some? ==> WrongName(v, HostFault(v).value, true)
  {
    assert forall c: char :: IsIdentifierChar(c) <==> IdentifierLetter(c);
    assert forall c: char :: IsHostChar(c) <==> IdentifierLetter(c) || c == '.';
  }

  /** The fields are judged from left to right: the spec of a rejected token keeps the parts
      before the first wrong one, and names that part. */
  ghost predicate Rejects(canon: Canon, w: Spelling, s: DBSpec) {
    var host := if w.bracketed then canon(w.host) else if IsPlainHost(w.host) then Some(w.host) else None;
    var text := if w.port.Some? then w.port.value else "";
    var none := DBSpec("", "", "", Spell(w), 5432, s.invalid, false);
    && s.invalid.Some?
    && if host.None? then s == none && RejectsHost(w, s.invalid.value)
       else if !IsPort(text) then s == none.(host := host.value) && s.invalid == Some(BadPort)
       else
         && WritesPort(text, s.port)
         && var known := none.(host := host.value, port := s.port);
            if !IsIdentifier(w.dbname)
            then s == known && s.invalid.value.BadDBName? && WrongName(w.dbname, s.invalid.value.why, false)
            else if !IsIdentifier(w.user)
            then && s == known.(dbname := w.dbname)
                 && s.invalid.value.BadUser? && WrongName(w.user, s.invalid.value.why, false)
            else && DirectoryLength(host.value, s.port) > 255 && s.invalid == Some(HostTooLong)
                 && s == known.(dbname := w.dbname, user := w.user)
  }

  predicate RejectsHost(w: Spelling, f: Fault) {
    if w.bracketed then f == NotAnAddress else f.BadHost? && WrongName(w.host, f.why, true)
  }

  /** What the parse of a shaped token comes down to. */
  lemma ParsedFields(canon: Canon, w: Spelling)
    requires HasShape(w)
    ensures var host := if w.bracketed then canon(w.host) else if IsPlainHost(w.host) then Some(w.host) else None;
            var port := PortOf(PortText(w));
            var none := DBSpec("", "", "", Spell(w), 5432, None, false);
            var s := Parsed(canon, Spell(w));
            if host.None?
            then s == none.(invalid := s.invalid) && s.invalid.Some? && RejectsHost(w, s.invalid.value) else
            var s1 := none.(host := host.value);
            if port.None? then s == s1.(invalid := Some(BadPort)) else
            var s2 := s1.(port := port.value);
            if IdentifierFault(w.dbname).Some?
            then s == s2.(invalid := Some(BadDBName(IdentifierFault(w.dbname).value))) else
            var s3 := s2.(dbname := w.dbname);
            if IdentifierFault(w.user).Some?
            then s == s3.(invalid := Some(BadUser(IdentifierFault(w.user).value))) else
            var s4 := s3.(user := w.user);
            s == if DirectoryLength(s4.host, s4.port) > 255 then s4.(invalid := Some(HostTooLong)) else s4
  {
    hide SplitFields, Spell, IdentifierFault, HostFault, PortOf, ServerDir;
    hide IsPlainHost, WrongName, DirectoryLength;
    ShapeSplits(w);
    HostIff(w.host);
    NameFaults(w.host);
    var s := Parsed(canon, Spell(w));
    DirectoryLengthIs(s.host, s.port);
  }

  /** A token with the shape of fields is either accepted with its denotation or rejected for its
      first wrong part. */
  lemma ShapedToken(canon: Canon, w: Spelling)
    requires HasShape(w)
    ensures var s := Parsed(canon, Spell(w)); if s.invalid.None? then Denotes(canon, w, s) else Rejects(canon, w, s)
  {
    hide Parsed, Spell, IdentifierFault, PortOf, WritesPort, IsPort, IsPlainHost, IsIdentifier, WrongName, RejectsHost;
    hide DirectoryLength;
    ParsedFields(canon, w);
    IdentifierIff(w.dbname);
    IdentifierIff(w.user);
    NameFaults(w.dbname);
    NameFaults(w.user);
    IsPortIff(PortText(w));
  }

  /** The first closing bracket is at k. */
  predicate ClosesAt(tok: string, k: nat) {
    k < |tok| && tok[k] == ']' && ']' !in tok[..k]
  }

  ghost predicate ColonAfterBracket(tok: string) {
    exists k: nat :: ClosesAt(tok, k) && k + 1 < |tok| && tok[k + 1] == ':'
  }

  /** Any other token is rejected whole: for a bracket that is never closed, for a closing
      bracket without a colon behind it, or for the number of its fields. */
  lemma ShapelessToken(canon: Canon, tok: string)
    requires forall w: Spelling :: HasShape(w) ==> Spell(w) != tok
    ensures var f := if tok == "" || tok[0] != '[' then BadShape
                     else if ']' !in tok then MissingBracket
                     else if !ColonAfterBracket(tok) then MissingColon else BadShape;
            Parsed(canon, tok) == DBSpec("", "", "", tok, 5432, Some(f), false)
  {
    hide Spell, PartsOf, Split, ColonAfterBracket;
    if SplitFields(tok).Parts? {
      var w := SpellingOfFields(tok);
      ShapedFields(tok, w);
    }
    FaultOfShape(tok);
    hide SplitFields;
  }

  lemma ShapedFields(tok: string, w: Spelling)
    requires SplitFields(tok).Parts? && Spell(w) == tok && tok != "" && (w.bracketed <==> tok[0] == '[')
    requires SplitFields(tok) == Parts(w.host, PortText(w), w.dbname, w.user)
    requires (w.bracketed ==> ']' !in w.host) && ':' !in PortText(w)
    ensures HasShape(w)
  {
    hide Spell, Split;
    if w.bracketed {
      BracketedFields(tok);
    } else {
      SplitOnce(tok, ':');
      assert w.host != "" ==> w.host[0] == tok[0];
    }
  }

  lemma FaultOfShape(tok: string)
    requires SplitFields(tok).Unsplit?
    ensures SplitFields(tok).fault
         == if tok == "" || tok[0] != '[' then BadShape
            else if ']' !in tok then MissingBracket
            else if !ColonAfterBracket(tok) then MissingColon else BadShape
  {
    hide IndexOf, Split;
    if tok != "" && tok[0] == '[' && ']' in tok {
      var end := IndexOf(tok, ']');
      FirstIsUnique(tok, end);
      assert ClosesAt(tok, end);
    }
  }

  lemma InPrefix(tok: string, i: nat, k: nat)
    ensures i < k <= |tok| ==> tok[i] in tok[..k]
  {
    if i < k <= |tok| {
      assert tok[..k][i] == tok[i];
    }
  }

  lemma FirstIsUnique(tok: string, end: nat)
    requires ClosesAt(tok, end)
    ensures forall k: nat :: ClosesAt(tok, k) ==> k == end
  {
    forall k: nat | ClosesAt(tok, k)
      ensures k == end
    {
      InPrefix(tok, end, k);
      InPrefix(tok, k, end);
    }
  }

  /** Deduplication, field by field: a token that passes the grammar is a duplicate if and only if
      an earlier such token names the same host, port and database, whatever the user and the
      spelling; a duplicate keeps its fields, and every other token is as parsed alone. */
  lemma DuplicateIff(canon: Canon, tokens: seq<string>, i: nat)
    requires i < |tokens|
    ensures var s, alone := ParsedTokens(canon, tokens)[i], Parsed(canon, tokens[i]);
            && (s.duplicate <==>
                  && alone.invalid.None?
                  && exists j :: 0 <= j < i && Parsed(canon, tokens[j]).invalid.None?
                       && Parsed(canon, tokens[j]).host == alone.host && Parsed(canon, tokens[j]).port == alone.port
                       && Parsed(canon, tokens[j]).dbname == alone.dbname)
            && s == if s.duplicate then alone.(invalid := Some(DuplicateKey), duplicate := true) else alone
  {
    NoDuplicateAlone(canon, tokens[i]);
    hide Parsed;
  }

  lemma NoDuplicateAlone(canon: Canon, tok: string)
    ensures !Parsed(canon, tok).duplicate
  {
    hide SplitFields, ServerDir, HostFault, IdentifierFault, PortOf;
  }
}
