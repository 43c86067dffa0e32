/** What the DB_SPECS parser is for: which tokens it accepts and what they mean, that
    printing inverts it, and that identities map one to one onto server directories. */
module SpecLaws {
  import opened Results
  import opened Text
  import opened Spec

  // The accepted language.

  /** One way to write a spec down. An empty port text counts as an omitted port. */
  datatype Spelling = Spelling(bracketed: bool, host: string, port: Option<string>, dbname: string, user: string)

  function Tail(w: Spelling): seq<string> {
    (if w.port.Some? then [w.port.value] else []) + [w.dbname, w.user]
  }

  function Spell(w: Spelling): string {
    if w.bracketed then "[" + w.host + ("]" + (":" + JoinWith(Tail(w), ':'))) else JoinWith([w.host] + Tail(w), ':')
  }

  function PortText(w: Spelling): string {
    if w.port.Some? then w.port.value else ""
  }

  function HostText(canon: Canon, w: Spelling): Option<string> {
    if w.bracketed then canon(w.host) else if HostFault(w.host).None? then Some(w.host) else None
  }

  /** The spellings the grammar admits. */
  predicate Admitted(canon: Canon, w: Spelling) {
    && HostText(canon, w).Some?
    && (w.bracketed ==> ']' !in w.host)
    && PortOf(PortText(w)).Some? && ':' !in PortText(w)
    && IdentifierFault(w.dbname).None? && IdentifierFault(w.user).None?
    && |ServerDir(HostText(canon, w).value, PortOf(PortText(w)).value)| <= MAX_SERVER_DIR_LEN
  }

  function Meaning(canon: Canon, w: Spelling): DBSpec
    requires Admitted(canon, w)
  {
    DBSpec(HostText(canon, w).value, w.dbname, w.user, Spell(w), PortOf(PortText(w)).value, None, false)
  }

  lemma NoColon(v: string)
    requires HostFault(v).None? || IdentifierFault(v).None?
    ensures v != "" && ':' !in v && v[0] != '[' && v[0] != '@'
    ensures forall i :: 0 <= i < |v| ==> !IsSpace(v[i]) && v[i] != '/' && v[i] != '\0'
  {
    hide IsSpace, IsHostChar, HasDotDot;
    forall i | 0 <= i < |v|
      ensures IsHostChar(v[i]) && !IsSpace(v[i]) && v[i] != ':' && v[i] != '/' && v[i] != '\0'
    {
      HostCharIs(v[i]);
    }
    assert v != "" ==> IsHostChar(v[0]);
    NoBracketIsHostChar();
  }

  lemma HostCharIs(c: char)
    ensures IsIdentifierChar(c) ==> IsHostChar(c)
    ensures IsHostChar(c) ==> !IsSpace(c) && c != ':' && c != '/' && c != '\0'
  {
  }

  lemma NoBracketIsHostChar()
    ensures !IsHostChar('[') && !IsHostChar('@')
  {
  }

  lemma SplitOfSpell(canon: Canon, w: Spelling)
    requires Admitted(canon, w)
    ensures SplitFields(Spell(w)) == Parts(w.host, PortText(w), w.dbname, w.user)
    ensures Spell(w) != "" && (Spell(w)[0] == '[' <==> w.bracketed)
  {
    hide IdentifierFault, HostFault, ServerDir, Split, JoinWith, PortOf;
    NoColon(w.dbname);
    NoColon(w.user);
    if w.bracketed {
      SplitOfJoin(Tail(w), ':');
      SplitOfBracketed(w.host, JoinWith(Tail(w), ':'));
    } else {
      NoColon(w.host);
      SplitOfJoin([w.host] + Tail(w), ':');
      FirstOfJoin([w.host] + Tail(w), ':');
    }
  }

  lemma BracketedPieces(host: string, rest: string)
    requires ']' !in host
    ensures var tok := "[" + host + ("]" + rest);
            && tok[0] == '[' && IndexOf(tok, ']') == |host| + 1
            && tok[1..|host| + 1] == host && tok[|host| + 2..] == rest
  {
    hide IndexOf;
    var tok := "[" + host + ("]" + rest);
    IndexAfter("[" + host, ']', rest);
    assert tok == ("[" + host) + [']'] + rest;
  }

  lemma SplitOfBracketed(host: string, tail: string)
    requires ']' !in host
    ensures SplitFields("[" + host + ("]" + (":" + tail))) == PartsOf(host, Split(tail, ':'))
  {
    hide Split, PartsOf;
    var tok := "[" + host + ("]" + (":" + tail));
    BracketedPieces(host, ":" + tail);
    hide IndexOf;
    assert (":" + tail)[1..] == tail;
  }

  lemma FirstOfJoin(parts: seq<string>, sep: char)
    requires parts != [] && parts[0] != ""
    ensures JoinWith(parts, sep) != "" && JoinWith(parts, sep)[0] == parts[0][0]
  {
  }

  /** Every admitted spelling is accepted with its meaning. */
  lemma SpellingAccepted(canon: Canon, w: Spelling)
    requires Admitted(canon, w)
    ensures Parsed(canon, Spell(w)) == Meaning(canon, w)
  {
    SplitOfSpell(canon, w);
    hide SplitFields, Spell, IdentifierFault, HostFault, ServerDir;
  }

  /** Every token that splits into fields is spelled from them. */
  lemma SpellingOfFields(tok: string) returns (w: Spelling)
    requires SplitFields(tok).Parts?
    ensures Spell(w) == tok
    ensures SplitFields(tok) == Parts(w.host, PortText(w), w.dbname, w.user)
    ensures tok != "" && (w.bracketed <==> tok[0] == '[')
    ensures (w.bracketed ==> ']' !in w.host) && ':' !in PortText(w)
  {
    if tok != "" && tok[0] == '[' {
      w := SpellingOfBracketed(tok);
    } else {
      var pieces := Split(tok, ':');
      JoinOfSplit(tok, ':');
      assert tok == "" ==> |pieces| == 1;
      hide JoinWith, Split;
      w := SpellingOfPieces(false, pieces[0], pieces[1..]);
      assert [w.host] + Tail(w) == pieces;
    }
  }

  lemma SpellingOfBracketed(tok: string) returns (w: Spelling)
    requires SplitFields(tok).Parts? && tok != "" && tok[0] == '['
    ensures w.bracketed && Spell(w) == tok
    ensures SplitFields(tok) == Parts(w.host, PortText(w), w.dbname, w.user)
    ensures ']' !in w.host && ':' !in PortText(w)
  {
    hide JoinWith, Split, PartsOf, SplitFields;
    BracketedFields(tok);
    var end := IndexOf(tok, ']');
    var rest := tok[end + 1..];
    hide IndexOf;
    JoinOfSplit(rest[1..], ':');
    w := SpellingOfPieces(true, tok[1..end], Split(rest[1..], ':'));
    CutBrackets(tok, end);
    assert rest == ":" + rest[1..];
  }

  lemma BracketedFields(tok: string)
    requires SplitFields(tok).Parts? && tok != "" && tok[0] == '['
    ensures var end := IndexOf(tok, ']');
            && 1 <= end < |tok| - 1 && tok[end + 1] == ':'
            && SplitFields(tok) == PartsOf(tok[1..end], Split(tok[end + 1..][1..], ':'))
  {
    hide Split, PartsOf;
  }

  lemma SpellingOfPieces(bracketed: bool, host: string, pieces: seq<string>) returns (w: Spelling)
    requires PartsOf(host, pieces).Parts?
    requires forall k :: 0 <= k < |pieces| ==> ':' !in pieces[k]
    ensures w.bracketed == bracketed && w.host == host && Tail(w) == pieces && ':' !in PortText(w)
    ensures PartsOf(host, pieces) == Parts(w.host, PortText(w), w.dbname, w.user)
  {
    var n := |pieces|;
    w := Spelling(bracketed, host, if n == 2 then None else Some(pieces[0]), pieces[n - 2], pieces[n - 1]);
  }

  lemma CutBrackets(tok: string, end: nat)
    requires 1 <= end < |tok| && tok[0] == '[' && tok[end] == ']' && ']' !in tok[..end]
    ensures tok == "[" + tok[1..end] + ("]" + tok[end + 1..])
    ensures ']' !in tok[1..end]
  {
    assert forall i :: 0 <= i < end - 1 ==> tok[1..end][i] == tok[..end][i + 1];
  }

  /** Every accepted token is an admitted spelling. */
  lemma AcceptedSpelling(canon: Canon, tok: string) returns (w: Spelling)
    requires Parsed(canon, tok).invalid.None?
    ensures Admitted(canon, w) && Spell(w) == tok
  {
    w := SpellingOfFields(tok);
    hide IdentifierFault, HostFault, ServerDir, PortOf, SplitFields, Spell;
  }

  /** The grammar, both ways: a token passes exactly when it is an admitted spelling, and it
      then denotes what that spelling means. */
  lemma Grammar(canon: Canon, tok: string)
    ensures Parsed(canon, tok).invalid.None? <==> exists w: Spelling :: Admitted(canon, w) && Spell(w) == tok
    ensures forall w: Spelling :: Admitted(canon, w) && Spell(w) == tok ==> Parsed(canon, tok) == Meaning(canon, w)
  {
    hide Admitted, Spell, Parsed;
    if Parsed(canon, tok).invalid.None? {
      var w := AcceptedSpelling(canon, tok);
    }
    forall w: Spelling | Admitted(canon, w) && Spell(w) == tok
      ensures Parsed(canon, tok) == Meaning(canon, w)
    {
      SpellingAccepted(canon, w);
    }
  }

  // Accepted identities.

  /** A host as the parser stores it: a plain name, or the canonical text of an address. */
  ghost predicate IsHost(canon: Canon, host: string) {
    if ':' in host then IsCanonical(canon, host) else HostFault(host).None?
  }

  /** What holds of every accepted spec, and is all that acceptance takes. */
  ghost predicate WellFormed(canon: Canon, s: DBSpec) {
    && s.invalid.None? && !s.duplicate
    && IsHost(canon, s.host)
    && 1 <= s.port <= 65535
    && IdentifierFault(s.dbname).None? && IdentifierFault(s.user).None?
    && |ServerDir(s.host, s.port)| <= MAX_SERVER_DIR_LEN
  }

  lemma AcceptedIsWellFormed(canon: Canon, tok: string)
    requires Canonicalizes(canon) && Parsed(canon, tok).invalid.None?
    ensures WellFormed(canon, Parsed(canon, tok))
  {
    var w := AcceptedSpelling(canon, tok);
    SpellingAccepted(canon, w);
    if !w.bracketed {
      NoColon(w.host);
    }
    hide HostFault, IdentifierFault, ServerDir, Spell;
  }

  lemma ShorterTail(a: string, d: string, b: string, e: string)
    requires a + "_" + d == b + "_" + e && |d| < |e|
    ensures '_' in e
  {
    assert (a + "_" + d)[|a|] == (b + "_" + e)[|a|] == e[|a| - |b| - 1];
  }

  lemma LastUnderscore(a: string, d: string, b: string, e: string)
    requires a + "_" + d == b + "_" + e && '_' !in d && '_' !in e
    ensures a == b && d == e
  {
    var s, t := a + "_" + d, b + "_" + e;
    if |d| < |e| {
      ShorterTail(a, d, b, e);
    } else if |e| < |d| {
      ShorterTail(b, e, a, d);
    } else {
      assert s[..|a|] == a && s[|a| + 1..] == d;
      assert t[..|b|] == b && t[|b| + 1..] == e;
    }
  }

  lemma DirShape(canon: Canon, host: string, port: nat) returns (stem: string)
    requires IsHost(canon, host)
    ensures ServerDir(host, port) == stem + "_" + Itoa(port)
    ensures stem != "" && (stem[0] == '@' <==> ':' in host)
    ensures if ':' in host then stem == "@" + Replace(host, ':', '-') else stem == host
    ensures '_' !in Itoa(port)
    ensures forall i :: 0 <= i < |stem| ==> stem[i] != '/' && stem[i] != '\0'
  {
    if ':' in host {
      stem := "@" + Replace(host, ':', '-');
      forall i | 0 <= i < |stem|
        ensures stem[i] != '/' && stem[i] != '\0'
      {
        assert i > 0 ==> stem[i] == Replace(host, ':', '-')[i - 1] && IsAddressChar(host[i - 1]);
      }
    } else {
      stem := host;
      NoColon(host);
    }
    forall i | 0 <= i < |Itoa(port)|
      ensures Itoa(port)[i] != '_'
    {
      assert IsDigit(Itoa(port)[i]);
    }
  }

  /** Distinct (host, port) pairs never share a directory, across the plain and the '@' form. */
  lemma ServerDirInjective(canon: Canon, h: string, p: nat, h': string, p': nat)
    requires IsHost(canon, h) && IsHost(canon, h')
    requires ServerDir(h, p) == ServerDir(h', p')
    ensures h == h' && p == p'
  {
    var stem := DirShape(canon, h, p);
    var stem' := DirShape(canon, h', p');
    LastUnderscore(stem, Itoa(p), stem', Itoa(p'));
    ItoaInjective(p, p');
    if ':' in h {
      var r, r' := stem[1..], stem'[1..];
      assert r == Replace(h, ':', '-') && r' == Replace(h', ':', '-');
      forall i | 0 <= i < |h|
        ensures h[i] == h'[i]
      {
        assert r[i] == r'[i];
        assert IsAddressChar(h[i]) && IsAddressChar(h'[i]);
      }
    }
  }

  /** An accepted spec's directory is one path component that fits a file system. */
  lemma ServerDirIsComponent(canon: Canon, s: DBSpec)
    requires WellFormed(canon, s)
    ensures 1 <= |ServerDir(s.host, s.port)| <= 255
    ensures '/' !in ServerDir(s.host, s.port) && '\0' !in ServerDir(s.host, s.port)
    ensures ServerDir(s.host, s.port) != "." && ServerDir(s.host, s.port) != ".."
  {
    var stem := DirShape(canon, s.host, s.port);
    assert forall i :: 0 <= i < |Itoa(s.port)| ==> IsDigit(Itoa(s.port)[i]);
    assert ServerDir(s.host, s.port)[|stem|] == '_';
  }

  // Printing and parsing back.

  /** The canonical spelling: brackets when the host has a colon, the port always written. */
  function Canonical(s: DBSpec): Spelling {
    Spelling(':' in s.host, s.host, Some(Itoa(s.port)), s.dbname, s.user)
  }

  function Render(s: DBSpec): string {
    Spell(Canonical(s))
  }

  lemma ItoaPlain(n: nat)
    ensures forall i :: 0 <= i < |Itoa(n)| ==> Itoa(n)[i] != ':' && !IsSpace(Itoa(n)[i])
  {
    forall i | 0 <= i < |Itoa(n)|
      ensures Itoa(n)[i] != ':' && !IsSpace(Itoa(n)[i])
    {
      assert IsDigit(Itoa(n)[i]);
    }
  }

  lemma CanonicalAdmitted(canon: Canon, s: DBSpec)
    requires WellFormed(canon, s)
    ensures Admitted(canon, Canonical(s))
    ensures Meaning(canon, Canonical(s)) == s.(raw := Render(s))
  {
    ItoaPlain(s.port);
    AtoiItoa(s.port);
    assert ':' in s.host ==> forall i :: 0 <= i < |s.host| ==> IsAddressChar(s.host[i]);
    hide HostFault, IdentifierFault, ServerDir, Itoa, Atoi, Spell;
  }

  predicate NoSpaces(s: string) {
    forall i :: 0 <= i < |s| ==> !IsSpace(s[i])
  }

  lemma {:induction false} JoinNoSpaces(parts: seq<string>)
    requires parts != [] && forall k :: 0 <= k < |parts| ==> NoSpaces(parts[k])
    ensures NoSpaces(JoinWith(parts, ':'))
  {
    if |parts| > 1 {
      JoinNoSpaces(parts[1..]);
    }
  }

  lemma SpellNoSpaces(w: Spelling)
    requires NoSpaces(w.host) && NoSpaces(PortText(w)) && NoSpaces(w.dbname) && NoSpaces(w.user)
    ensures NoSpaces(Spell(w))
  {
    hide IsSpace, JoinWith;
    JoinNoSpaces(Tail(w));
    JoinNoSpaces([w.host] + Tail(w));
    BracketsNoSpaces(w.host, JoinWith(Tail(w), ':'));
  }

  lemma BracketsNoSpaces(host: string, tail: string)
    requires NoSpaces(host) && NoSpaces(tail)
    ensures NoSpaces("[" + host + ("]" + (":" + tail)))
  {
  }

  lemma HostNoSpaces(canon: Canon, host: string)
    requires IsHost(canon, host)
    ensures NoSpaces(host)
  {
    if ':' in host {
      forall i | 0 <= i < |host|
        ensures !IsSpace(host[i])
      {
        assert IsAddressChar(host[i]);
      }
    } else {
      NoColon(host);
    }
  }

  lemma RenderIsWord(canon: Canon, s: DBSpec)
    requires WellFormed(canon, s)
    ensures IsWord(Render(s))
  {
    ItoaPlain(s.port);
    NoColon(s.dbname);
    NoColon(s.user);
    HostNoSpaces(canon, s.host);
    CanonicalAdmitted(canon, s);
    hide IsSpace, Spell, HostFault, IdentifierFault, IsHost, ServerDir, Itoa, SplitFields, Admitted, Meaning;
    SpellNoSpaces(Canonical(s));
    SplitOfSpell(canon, Canonical(s));
  }

  ghost predicate Distinct(specs: seq<DBSpec>) {
    forall i, j | 0 <= i < j < |specs| :: !SameTarget(specs[i], specs[j])
  }

  function Rendered(specs: seq<DBSpec>): (texts: seq<string>)
    ensures |texts| == |specs|
    ensures forall i :: 0 <= i < |specs| ==> texts[i] == Render(specs[i])
  {
    if specs == [] then [] else [Render(specs[0])] + Rendered(specs[1..])
  }

  /** The whole list on one line, as an operator would write it. */
  function Print(specs: seq<DBSpec>): string {
    if specs == [] then "" else JoinWith(Rendered(specs), ' ')
  }

  /** Printing well-formed specs with distinct targets and parsing the line gives back
      exactly those specs, in order, all valid and none a duplicate. */
  lemma ParsePrint(canon: Canon, specs: seq<DBSpec>)
    requires Distinct(specs) && forall i :: 0 <= i < |specs| ==> WellFormed(canon, specs[i])
    ensures ParsedTokens(canon, Fields(Print(specs)))
         == seq(|specs|, i requires 0 <= i < |specs| => specs[i].(raw := Render(specs[i])))
  {
    hide Render, Parsed, WellFormed, Fields, Print, Rendered, IsWord, Distinct;
    var tokens := Rendered(specs);
    forall i | 0 <= i < |specs|
      ensures IsWord(tokens[i]) && Parsed(canon, tokens[i]) == specs[i].(raw := Render(specs[i]))
    {
      RenderParses(canon, specs[i]);
    }
    PrintFields(specs);
    forall i | 0 <= i < |specs|
      ensures SpecAt(canon, tokens, i) == specs[i].(raw := Render(specs[i]))
    {
      NoEarlierTarget(specs, i);
      assert specs[i].invalid.None? by {
        WellFormedIsValid(canon, specs[i]);
      }
    }
  }

  lemma RenderParses(canon: Canon, s: DBSpec)
    requires WellFormed(canon, s)
    ensures IsWord(Render(s)) && Parsed(canon, Render(s)) == s.(raw := Render(s))
  {
    RenderIsWord(canon, s);
    CanonicalAdmitted(canon, s);
    SpellingAccepted(canon, Canonical(s));
    hide Parsed, IsWord, Spell, ServerDir, HostFault, IdentifierFault;
  }

  lemma PrintFields(specs: seq<DBSpec>)
    requires forall i :: 0 <= i < |specs| ==> IsWord(Render(specs[i]))
    ensures Fields(Print(specs)) == Rendered(specs)
  {
    hide Render, IsWord;
    if specs != [] {
      FieldsOfJoin(Rendered(specs));
    }
  }

  lemma NoEarlierTarget(specs: seq<DBSpec>, i: nat)
    requires Distinct(specs) && i < |specs|
    ensures forall j :: 0 <= j < i ==> !SameTarget(specs[j], specs[i])
  {
  }

  lemma WellFormedIsValid(canon: Canon, s: DBSpec)
    requires WellFormed(canon, s)
    ensures s.invalid.None? && !s.duplicate
  {
  }

  /** The valid specs of a parse, in order. */
  function Accepted(specs: seq<DBSpec>): (valid: seq<DBSpec>)
    ensures forall k :: 0 <= k < |valid| ==> valid[k] in specs && valid[k].invalid.None?
  {
    if specs == [] then []
    else Accepted(specs[..|specs| - 1]) + (if specs[|specs| - 1].invalid.None? then [specs[|specs| - 1]] else [])
  }

  lemma {:induction false} AcceptedDistinct(canon: Canon, tokens: seq<string>)
    ensures Distinct(Accepted(ParsedTokens(canon, tokens)))
  {
    if tokens != [] {
      var n := |tokens| - 1;
      var specs := ParsedTokens(canon, tokens);
      AcceptedDistinct(canon, tokens[..n]);
      assert specs[..n] == ParsedTokens(canon, tokens[..n]) by {
        forall i | 0 <= i < n
          ensures SpecAt(canon, tokens, i) == SpecAt(canon, tokens[..n], i)
        {
          assert forall j :: 0 <= j < i ==> tokens[j] == tokens[..n][j];
        }
      }
      var before := Accepted(specs[..n]);
      hide Parsed;
      if specs[n].invalid.None? {
        forall k | 0 <= k < |before|
          ensures !SameTarget(before[k], specs[n])
        {
          var j :| 0 <= j < n && specs[j] == before[k];
          assert specs[j] == Parsed(canon, tokens[j]);
        }
      }
    }
  }

  /** The round trip on everything the parser can accept: whatever the input, printing its
      valid specs and parsing the line gives them back, in order, with no fault. */
  lemma ParsePrintParse(canon: Canon, raw: string)
    requires Canonicalizes(canon)
    ensures var valid := Accepted(ParsedTokens(canon, Fields(raw)));
            ParsedTokens(canon, Fields(Print(valid)))
            == seq(|valid|, i requires 0 <= i < |valid| => valid[i].(raw := Render(valid[i])))
  {
    var tokens := Fields(raw);
    var specs := ParsedTokens(canon, tokens);
    var valid := Accepted(specs);
    AcceptedDistinct(canon, tokens);
    forall i | 0 <= i < |valid|
      ensures WellFormed(canon, valid[i])
    {
      AcceptedIsSomeToken(canon, tokens, valid[i]);
    }
    ParsePrint(canon, valid);
  }

  lemma AcceptedIsSomeToken(canon: Canon, tokens: seq<string>, s: DBSpec)
    requires Canonicalizes(canon) && s in ParsedTokens(canon, tokens) && s.invalid.None?
    ensures WellFormed(canon, s)
  {
    var j :| 0 <= j < |tokens| && SpecAt(canon, tokens, j) == s;
    AcceptedIsWellFormed(canon, tokens[j]);
  }
}
