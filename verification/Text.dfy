/** Strings as the program uses them: decimal numbers, splitting, whitespace fields, the
    escaped join of a key, and byte-wise comparison. */
module Text {
  import opened Results

  // Decimal numbers.

  predicate IsDigit(c: char) { '0' <= c <= '9' }

  predicate AllDigits(s: string) {
    forall i :: 0 <= i < |s| ==> IsDigit(s[i])
  }

  function Digit(d: nat): (c: char)
    requires d < 10
    ensures IsDigit(c)
  {
    (d + '0' as int) as char
  }

  function Itoa(n: nat): (s: string)
    ensures s != [] && AllDigits(s)
  {
    if n < 10 then [Digit(n)] else Itoa(n / 10) + [Digit(n % 10)]
  }

  function DigitsValue(s: string): nat
    requires AllDigits(s)
  {
    if s == [] then 0 else 10 * DigitsValue(s[..|s| - 1]) + (s[|s| - 1] as int - '0' as int)
  }

  /** An optional sign, then digits; anything else, or a value past 64 bits, is an error. */
  function Atoi(s: string): Option<int> {
    var body := if s != [] && (s[0] == '+' || s[0] == '-') then s[1..] else s;
    if body == [] || !AllDigits(body) then None else
    var v: int := DigitsValue(body) * (if s[0] == '-' then -1 else 1);
    if -0x8000_0000_0000_0000 <= v <= 0x7FFF_FFFF_FFFF_FFFF then Some(v) else None
  }

  lemma {:induction false} DigitsValueItoa(n: nat)
    ensures DigitsValue(Itoa(n)) == n
  {
    if n >= 10 {
      DigitsValueItoa(n / 10);
      assert Itoa(n)[..|Itoa(n)| - 1] == Itoa(n / 10);
    }
  }

  lemma AtoiItoa(n: nat)
    requires n <= 0x7FFF_FFFF_FFFF_FFFF
    ensures Atoi(Itoa(n)) == Some(n)
  {
    DigitsValueItoa(n);
    assert IsDigit(Itoa(n)[0]);
  }

  /** Printed numbers have no leading zero, so a number is printed in one way. */
  lemma {:induction false} ItoaIsCanonical(n: nat)
    ensures Itoa(n)[0] == '0' <==> n == 0
    ensures n == 0 ==> Itoa(n) == "0"
  {
    if n >= 10 {
      ItoaIsCanonical(n / 10);
    }
  }

  /** The readable numbers are an optional sign and digits; any other text is an error. */
  lemma AtoiReads(sign: string, digits: string)
    requires sign == "" || sign == "+" || sign == "-"
    requires digits != "" && forall i :: 0 <= i < |digits| ==> '0' <= digits[i] <= '9'
    ensures AllDigits(digits)
    ensures var v: int := DigitsValue(digits) * (if sign == "-" then -1 else 1);
            Atoi(sign + digits)
            == if -0x8000_0000_0000_0000 <= v <= 0x7FFF_FFFF_FFFF_FFFF then Some(v) else None
  {
    hide DigitsValue;
    var s := sign + digits;
    assert AllDigits(digits);
    assert '0' <= digits[0] <= '9';
    if sign == "" {
      assert s == digits;
    } else {
      assert s[0] == sign[0] && s[1..] == digits;
    }
  }

  lemma AtoiReadsOnly(s: string) returns (sign: string, digits: string)
    requires Atoi(s).Some?
    ensures sign == "" || sign == "+" || sign == "-"
    ensures digits != "" && forall i :: 0 <= i < |digits| ==> '0' <= digits[i] <= '9'
    ensures s == sign + digits
  {
    if s[0] == '+' || s[0] == '-' {
      sign, digits := s[..1], s[1..];
      assert sign == [s[0]];
    } else {
      sign, digits := "", s;
    }
    assert AllDigits(digits);
  }

  lemma ItoaInjective(a: nat, b: nat)
    requires Itoa(a) == Itoa(b)
    ensures a == b
  {
    DigitsValueItoa(a);
    DigitsValueItoa(b);
  }

  // Searching and splitting.

  /** The first position of c in s, or |s|. */
  function IndexOf(s: string, c: char): (i: nat)
    ensures i <= |s| && c !in s[..i]
    ensures i < |s| <==> c in s
    ensures i < |s| ==> s[i] == c
  {
    if s == [] || s[0] == c then 0 else 1 + IndexOf(s[1..], c)
  }

  function Split(s: string, sep: char): (parts: seq<string>)
    ensures parts != []
    ensures forall k :: 0 <= k < |parts| ==> sep !in parts[k]
    decreases |s|
  {
    var i := IndexOf(s, sep);
    if i == |s| then assert s[..i] == s; [s] else [s[..i]] + Split(s[i + 1..], sep)
  }

  function JoinWith(parts: seq<string>, sep: char): string
    requires parts != []
  {
    if |parts| == 1 then parts[0] else parts[0] + [sep] + JoinWith(parts[1..], sep)
  }

  lemma IndexAfter(head: string, sep: char, rest: string)
    requires sep !in head
    ensures IndexOf(head + [sep] + rest, sep) == |head|
  {
    var s := head + [sep] + rest;
    var i := IndexOf(s, sep);
    assert s[|head|] == sep;
    assert forall k :: 0 <= k < |head| ==> s[k] == head[k];
    assert forall k :: 0 <= k < i ==> s[..i][k] == s[k];
  }

  lemma SplitOnce(s: string, sep: char)
    ensures IndexOf(s, sep) == |s| ==> Split(s, sep) == [s]
    ensures IndexOf(s, sep) < |s| ==>
      Split(s, sep) == [s[..IndexOf(s, sep)]] + Split(s[IndexOf(s, sep) + 1..], sep)
  {
    hide IndexOf;
  }

  lemma JoinOnce(head: string, tail: seq<string>, sep: char)
    ensures JoinWith([head], sep) == head
    ensures tail != [] ==> JoinWith([head] + tail, sep) == head + [sep] + JoinWith(tail, sep)
  {
    assert ([head] + tail)[1..] == tail;
  }

  lemma SplitAtFirst(head: string, sep: char, rest: string)
    requires sep !in head
    ensures Split(head, sep) == [head]
    ensures Split(head + [sep] + rest, sep) == [head] + Split(rest, sep)
  {
    hide Split;
    var s := head + [sep] + rest;
    IndexAfter(head, sep, rest);
    SplitOnce(head, sep);
    SplitOnce(s, sep);
    hide IndexOf;
    assert s[..|head|] == head && s[|head| + 1..] == rest;
  }

  lemma {:induction false} SplitOfJoin(parts: seq<string>, sep: char)
    requires parts != [] && forall k :: 0 <= k < |parts| ==> sep !in parts[k]
    ensures Split(JoinWith(parts, sep), sep) == parts
  {
    hide Split, JoinWith;
    var head, tail := parts[0], parts[1..];
    assert parts == [head] + tail;
    JoinOnce(head, tail, sep);
    if tail == [] {
      SplitAtFirst(head, sep, "");
      assert parts == [head];
    } else {
      SplitAtFirst(head, sep, JoinWith(tail, sep));
      SplitOfJoin(tail, sep);
    }
  }

  lemma CutAround(s: string, i: nat)
    requires i < |s|
    ensures s == s[..i] + [s[i]] + s[i + 1..]
  {
  }

  lemma {:induction false} JoinOfSplit(s: string, sep: char)
    ensures JoinWith(Split(s, sep), sep) == s
    decreases |s|
  {
    hide Split, JoinWith, IndexOf;
    var i := IndexOf(s, sep);
    SplitOnce(s, sep);
    if i == |s| {
      JoinOnce(s, [], sep);
    } else {
      JoinOfSplit(s[i + 1..], sep);
      JoinOnce(s[..i], Split(s[i + 1..], sep), sep);
      CutAround(s, i);
    }
  }

  // Whitespace fields.

  /** The characters Unicode calls white space. */
  predicate IsSpace(c: char) {
    c in "\t\n\U{000B}\U{000C}\r \U{0085}\U{00A0}\U{1680}\U{2028}\U{2029}\U{202F}\U{205F}\U{3000}"
    || '\U{2000}' <= c <= '\U{200A}'
  }

  /** The code points that separate words. */
  lemma SpaceCodes(c: char)
    ensures IsSpace(c) <==>
      || 9 <= c as int <= 13 || c as int == 32 || c as int == 0x85 || c as int == 0xA0 || c as int == 0x1680
      || 0x2000 <= c as int <= 0x200A || c as int == 0x2028 || c as int == 0x2029
      || c as int == 0x202F || c as int == 0x205F || c as int == 0x3000
  {
  }

  lemma BlankIsSpace()
    ensures IsSpace(' ')
  {
  }

  predicate IsWord(s: string) {
    s != [] && forall i :: 0 <= i < |s| ==> !IsSpace(s[i])
  }

  /** The length of the longest prefix without white space. */
  function WordLength(s: string): (n: nat)
    ensures n <= |s| && (forall i :: 0 <= i < n ==> !IsSpace(s[i])) && (n < |s| ==> IsSpace(s[n]))
  {
    if s == [] || IsSpace(s[0]) then 0 else 1 + WordLength(s[1..])
  }

  function Fields(s: string): (words: seq<string>)
    ensures forall k :: 0 <= k < |words| ==> IsWord(words[k])
    decreases |s|
  {
    if s == [] then []
    else if IsSpace(s[0]) then Fields(s[1..])
    else
      var n := WordLength(s);
      [s[..n]] + Fields(s[n..])
  }

  lemma WordAtFront(w: string, rest: string)
    requires IsWord(w) && (rest == [] || IsSpace(rest[0]))
    ensures Fields(w + rest) == [w] + Fields(rest)
  {
    hide IsSpace;
    var s := w + rest;
    var n := WordLength(s);
    assert forall i :: 0 <= i < |w| ==> s[i] == w[i];
    assert rest != [] ==> s[|w|] == rest[0];
    assert n == |w| && s[..n] == w && s[n..] == rest;
  }

  /** White space before a text does not matter. */
  lemma {:induction false} FieldsAfterGap(gap: string, rest: string)
    requires forall i :: 0 <= i < |gap| ==> IsSpace(gap[i])
    ensures Fields(gap + rest) == Fields(rest)
  {
    hide IsSpace;
    if gap == "" {
      assert gap + rest == rest;
    } else {
      assert (gap + rest)[1..] == gap[1..] + rest;
      FieldsAfterGap(gap[1..], rest);
    }
  }

  /** The words of a text: for every way to lay it out as a gap, a word, another gap, and so on,
      the words in order. With nothing but white space there are none. */
  lemma FieldsAreWords(gap: string, word: string, rest: string)
    requires forall i :: 0 <= i < |gap| ==> IsSpace(gap[i])
    requires IsWord(word) && (rest == "" || IsSpace(rest[0]))
    ensures Fields(gap + (word + rest)) == [word] + Fields(rest)
    ensures Fields(gap) == []
  {
    hide IsSpace, IsWord, Fields;
    FieldsAfterGap(gap, word + rest);
    FieldsAfterGap(gap, "");
    assert gap + "" == gap;
    NoFields();
    WordAtFront(word, rest);
  }

  lemma FieldsAfterBlank(rest: string)
    ensures Fields([' '] + rest) == Fields(rest)
  {
    assert ([' '] + rest)[1..] == rest;
  }

  lemma {:induction false} FieldsOfJoin(words: seq<string>)
    requires words != [] && forall k :: 0 <= k < |words| ==> IsWord(words[k])
    ensures Fields(JoinWith(words, ' ')) == words
  {
    BlankIsSpace();
    hide IsSpace, IsWord, Fields;
    var w := words[0];
    if |words| == 1 {
      WordAtFront(w, []);
      NoFields();
      assert w + [] == w && words == [w];
    } else {
      var rest := JoinWith(words[1..], ' ');
      WordAtFront(w, [' '] + rest);
      FieldsAfterBlank(rest);
      FieldsOfJoin(words[1..]);
      assert w + ([' '] + rest) == w + [' '] + rest;
    }
  }

  lemma NoFields()
    ensures Fields([]) == []
  {
  }

  // Escaped keys.

  function EscapeChar(c: char): string {
    if c == ':' || c == '\\' then ['\\', c] else [c]
  }

  function Escape(s: string): string {
    if s == [] then [] else EscapeChar(s[0]) + Escape(s[1..])
  }

  /** Three components, each escaped, separated by ':'. */
  function JoinKey(a: string, b: string, c: string): string {
    Escape(a) + ":" + (Escape(b) + ":" + Escape(c))
  }

  /** The first escaped character, and that it is no separator, can be read off. */
  lemma EscapedCharUnique(c: char, x: string, d: char, y: string)
    ensures EscapeChar(c) + x == EscapeChar(d) + y ==> c == d && x == y
    ensures EscapeChar(c) + x != [':'] + y
  {
    var s, t := EscapeChar(c) + x, EscapeChar(d) + y;
    assert s[0] == EscapeChar(c)[0] && t[0] == EscapeChar(d)[0];
    assert s[|EscapeChar(c)| - 1] == c && t[|EscapeChar(d)| - 1] == d;
    assert x == s[|EscapeChar(c)|..] && y == t[|EscapeChar(d)|..];
  }

  lemma UnescapedHead(a: string, x: string)
    ensures a == [] ==> Escape(a) + ":" + x == [':'] + x
    ensures a != [] ==> Escape(a) + ":" + x == EscapeChar(a[0]) + (Escape(a[1..]) + ":" + x)
  {
    hide EscapeChar;
  }

  lemma {:induction false} EscapedPrefixUnique(a: string, x: string, b: string, y: string)
    requires Escape(a) + ":" + x == Escape(b) + ":" + y
    ensures a == b && x == y
  {
    hide Escape, EscapeChar;
    UnescapedHead(a, x);
    UnescapedHead(b, y);
    if a == [] && b == [] {
      assert x == ([':'] + x)[1..] && y == ([':'] + y)[1..];
    } else if a == [] {
      EscapedCharUnique(b[0], Escape(b[1..]) + ":" + y, b[0], x);
    } else if b == [] {
      EscapedCharUnique(a[0], Escape(a[1..]) + ":" + x, a[0], y);
    } else {
      EscapedCharUnique(a[0], Escape(a[1..]) + ":" + x, b[0], Escape(b[1..]) + ":" + y);
      EscapedPrefixUnique(a[1..], x, b[1..], y);
      assert a == [a[0]] + a[1..] && b == [b[0]] + b[1..];
    }
  }

  lemma JoinKeyInjective(a: string, b: string, c: string, a': string, b': string, c': string)
    requires JoinKey(a, b, c) == JoinKey(a', b', c')
    ensures a == a' && b == b' && c == c'
  {
    EscapedPrefixUnique(a, Escape(b) + ":" + Escape(c), a', Escape(b') + ":" + Escape(c'));
    EscapedPrefixUnique(b, Escape(c), b', Escape(c'));
    EscapedPrefixUnique(c, [], c', []);
  }

  // Replacing a character.

  function Replace(s: string, from: char, to: char): (r: string)
    ensures |r| == |s|
    ensures forall i :: 0 <= i < |s| ==> r[i] == if s[i] == from then to else s[i]
  {
    if s == [] then [] else [if s[0] == from then to else s[0]] + Replace(s[1..], from, to)
  }

  // Byte-wise order. All compared names are ASCII.

  predicate Less(a: string, b: string) {
    b != [] && (a == [] || a[0] < b[0] || (a[0] == b[0] && Less(a[1..], b[1..])))
  }

  lemma {:induction false} LessTotal(a: string, b: string)
    ensures Less(a, b) || a == b || Less(b, a)
    ensures !(Less(a, b) && Less(b, a)) && (Less(a, b) ==> a != b)
  {
    if a != [] && b != [] {
      LessTotal(a[1..], b[1..]);
      assert a == [a[0]] + a[1..] && b == [b[0]] + b[1..];
    }
  }

  lemma {:induction false} LessTransitive(a: string, b: string, c: string)
    requires Less(a, b) && Less(b, c)
    ensures Less(a, c)
  {
    if a != [] && a[0] == b[0] && b[0] == c[0] {
      LessTransitive(a[1..], b[1..], c[1..]);
    }
  }

  /** Heads of equal length decide before tails do. */
  lemma {:induction false} LessByHead(a: string, x: string, b: string, y: string)
    requires |a| == |b|
    ensures Less(a + x, b + y) <==> Less(a, b) || (a == b && Less(x, y))
  {
    if a == [] {
      assert a + x == x && b + y == y;
    } else {
      assert (a + x)[1..] == a[1..] + x && (b + y)[1..] == b[1..] + y;
      LessByHead(a[1..], x, b[1..], y);
      assert a == [a[0]] + a[1..] && b == [b[0]] + b[1..];
    }
  }
}
