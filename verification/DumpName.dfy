/** The names a dump can have on disk (internal/dump/verify.go) and the shape of the
    temporary files dumps are staged in. */
module DumpName {
  import opened Results
  import opened Text
  import Spec

  /** A UTC time to the second. */
  datatype UTC = UTC(year: nat, month: nat, day: nat, hour: nat, minute: nat, second: nat)

  predicate ValidUTC(t: UTC) {
    t.year <= 9999 && 1 <= t.month <= 12 && 1 <= t.day <= 31 && t.hour <= 23 && t.minute <= 59 && t.second <= 59
  }

  predicate Earlier(a: UTC, b: UTC) {
    if a.year != b.year then a.year < b.year
    else if a.month != b.month then a.month < b.month
    else if a.day != b.day then a.day < b.day
    else if a.hour != b.hour then a.hour < b.hour
    else if a.minute != b.minute then a.minute < b.minute
    else a.second < b.second
  }

  /** n in exactly `width` decimal digits. */
  function Fixed(n: nat, width: nat): (s: string)
    ensures |s| == width
  {
    if width == 0 then "" else Fixed(n / 10, width - 1) + [Digit(n % 10)]
  }

  function Pow10(width: nat): nat {
    if width == 0 then 1 else 10 * Pow10(width - 1)
  }

  /** The layout 20060102T150405Z. */
  function Stamp(t: UTC): string {
    Fixed(t.year, 4) + (Fixed(t.month, 2) + (Fixed(t.day, 2) + ("T"
      + (Fixed(t.hour, 2) + (Fixed(t.minute, 2) + (Fixed(t.second, 2) + "Z"))))))
  }

  const SUFFIX: string := ".dump"

  function StableName(db: string): string {
    db + SUFFIX
  }

  function DumpFileName(db: string, keep: nat, t: UTC): string {
    if keep <= 1 then StableName(db) else db + ("." + (Stamp(t) + SUFFIX))
  }

  predicate HasSuffix(name: string, suffix: string) {
    |suffix| <= |name| && name[|name| - |suffix|..] == suffix
  }

  /** A retained copy of db: "<db>.<anything non-empty>.dump", never the stable name. */
  predicate IsCopy(db: string, name: string) {
    && name != StableName(db)
    && db + "." <= name && HasSuffix(name, SUFFIX)
    && |name| > |db + "."| + |SUFFIX|
  }

  /** A name one of db's dumps can end up under. */
  predicate IsFinal(db: string, name: string) {
    name == StableName(db) || IsCopy(db, name)
  }

  const TEMP_PREFIX: string := ".atomicfile-"
  const TEMP_SUFFIX: string := ".tmp"

  /** The staging file shape, ".atomicfile-<digits>.tmp". */
  predicate IsTemp(name: string) {
    && TEMP_PREFIX <= name && HasSuffix(name, TEMP_SUFFIX)
    && |name| > |TEMP_PREFIX| + |TEMP_SUFFIX|
    && AllDigits(name[|TEMP_PREFIX|..|name| - |TEMP_SUFFIX|])
  }

  const RECORD_NAME: string := ".pg-autodump-last-run"

  predicate IsDatabase(db: string) {
    Spec.IdentifierFault(db).None?
  }

  // Lexical order is time order.

  lemma DigitOrder(a: nat, b: nat)
    requires a < 10 && b < 10
    ensures Less([Digit(a)], [Digit(b)]) <==> a < b
    ensures Digit(a) == Digit(b) <==> a == b
  {
    assert [Digit(a)][1..] == [];
    assert [Digit(b)][1..] == [];
  }

  lemma {:induction false} FixedOrder(a: nat, b: nat, width: nat)
    requires a < Pow10(width) && b < Pow10(width)
    ensures Less(Fixed(a, width), Fixed(b, width)) <==> a < b
    ensures Fixed(a, width) == Fixed(b, width) <==> a == b
  {
    if width > 0 {
      FixedOrder(a / 10, b / 10, width - 1);
      LessByHead(Fixed(a / 10, width - 1), [Digit(a % 10)], Fixed(b / 10, width - 1), [Digit(b % 10)]);
      DigitOrder(a % 10, b % 10);
      assert a == 10 * (a / 10) + a % 10 && b == 10 * (b / 10) + b % 10;
      assert Fixed(a, width)[..width - 1] == Fixed(a / 10, width - 1);
      assert Fixed(b, width)[..width - 1] == Fixed(b / 10, width - 1);
    }
  }

  lemma FieldOrder(a: nat, x: string, b: nat, y: string, width: nat)
    requires a < Pow10(width) && b < Pow10(width)
    ensures Less(Fixed(a, width) + x, Fixed(b, width) + y) <==> a < b || (a == b && Less(x, y))
  {
    FixedOrder(a, b, width);
    LessByHead(Fixed(a, width), x, Fixed(b, width), y);
  }

  lemma LessSelf(s: string)
    ensures !Less(s, s)
  {
    LessTotal(s, s);
  }

  lemma StampOrder(a: UTC, x: string, b: UTC, y: string)
    requires ValidUTC(a) && ValidUTC(b)
    ensures Less(Stamp(a) + x, Stamp(b) + y) <==> Earlier(a, b) || (a == b && Less(x, y))
  {
    hide Fixed, Less;
    assert Pow10(2) == 100 && Pow10(4) == 10000;
    var s6, t6 := "Z" + x, "Z" + y;
    var s5, t5 := Fixed(a.second, 2) + s6, Fixed(b.second, 2) + t6;
    var s4, t4 := Fixed(a.minute, 2) + s5, Fixed(b.minute, 2) + t5;
    var s3, t3 := Fixed(a.hour, 2) + s4, Fixed(b.hour, 2) + t4;
    var s2, t2 := Fixed(a.day, 2) + ("T" + s3), Fixed(b.day, 2) + ("T" + t3);
    var s1, t1 := Fixed(a.month, 2) + s2, Fixed(b.month, 2) + t2;
    assert Stamp(a) + x == Fixed(a.year, 4) + s1 && Stamp(b) + y == Fixed(b.year, 4) + t1;
    FieldOrder(a.year, s1, b.year, t1, 4);
    FieldOrder(a.month, s2, b.month, t2, 2);
    FieldOrder(a.day, "T" + s3, b.day, "T" + t3, 2);
    LessByHead("T", s3, "T", t3);
    FieldOrder(a.hour, s4, b.hour, t4, 2);
    FieldOrder(a.minute, s5, b.minute, t5, 2);
    FieldOrder(a.second, s6, b.second, t6, 2);
    LessByHead("Z", x, "Z", y);
    LessSelf("T");
    LessSelf("Z");
  }

  /** For one database, comparing two retained names as strings is comparing their times. */
  lemma NameOrderIsTimeOrder(db: string, keep: nat, a: UTC, b: UTC)
    requires ValidUTC(a) && ValidUTC(b) && keep > 1
    ensures Less(DumpFileName(db, keep, a), DumpFileName(db, keep, b)) <==> Earlier(a, b)
    ensures DumpFileName(db, keep, a) == DumpFileName(db, keep, b) <==> a == b
  {
    SameTimeOrNot(a, b);
    StampOrder(a, SUFFIX, b, SUFFIX);
    StampOrder(b, SUFFIX, a, SUFFIX);
    LessSelf(SUFFIX);
    LessByHead(".", Stamp(a) + SUFFIX, ".", Stamp(b) + SUFFIX);
    LessByHead(db, "." + (Stamp(a) + SUFFIX), db, "." + (Stamp(b) + SUFFIX));
    LessByHead(".", Stamp(b) + SUFFIX, ".", Stamp(a) + SUFFIX);
    LessByHead(db, "." + (Stamp(b) + SUFFIX), db, "." + (Stamp(a) + SUFFIX));
    LessSelf(".");
    LessSelf(db);
    LessTotal(DumpFileName(db, keep, a), DumpFileName(db, keep, b));
  }

  lemma SameTimeOrNot(a: UTC, b: UTC)
    ensures Earlier(a, b) || a == b || Earlier(b, a)
    ensures !(Earlier(a, b) && Earlier(b, a)) && (Earlier(a, b) ==> a != b)
  {
  }

  // What names look like, in characters.

  lemma {:induction false} FixedReads(n: nat, width: nat)
    requires n < Pow10(width)
    ensures AllDigits(Fixed(n, width)) && DigitsValue(Fixed(n, width)) == n
  {
    if width > 0 {
      FixedReads(n / 10, width - 1);
      assert Fixed(n, width)[..width - 1] == Fixed(n / 10, width - 1);
    }
  }

  /** A stamp is fixed-width: year, month and day, a T, hour, minute and second, a Z. */
  lemma StampLayout(t: UTC)
    requires ValidUTC(t)
    ensures exists y: string, mo: string, d: string, h: string, mi: string, s: string ::
      && Stamp(t) == y + mo + d + "T" + h + mi + s + "Z"
      && Reads(y, 4, t.year) && Reads(mo, 2, t.month) && Reads(d, 2, t.day)
      && Reads(h, 2, t.hour) && Reads(mi, 2, t.minute) && Reads(s, 2, t.second)
  {
    hide Fixed;
    var y, mo, d := Fixed(t.year, 4), Fixed(t.month, 2), Fixed(t.day, 2);
    var h, mi, s := Fixed(t.hour, 2), Fixed(t.minute, 2), Fixed(t.second, 2);
    PowersOfTen();
    FixedReads(t.year, 4);
    FixedReads(t.month, 2);
    FixedReads(t.day, 2);
    FixedReads(t.hour, 2);
    FixedReads(t.minute, 2);
    FixedReads(t.second, 2);
    StampParts(t);
    assert Reads(y, 4, t.year) && Reads(mo, 2, t.month) && Reads(d, 2, t.day);
    assert Reads(h, 2, t.hour) && Reads(mi, 2, t.minute) && Reads(s, 2, t.second);
  }

  /** Exactly `width` decimal digits worth n. */
  predicate Reads(digits: string, width: nat, n: nat) {
    |digits| == width && AllDigits(digits) && DigitsValue(digits) == n
  }

  lemma PowersOfTen()
    ensures Pow10(2) == 100 && Pow10(4) == 10000
  {
  }

  lemma StampParts(t: UTC)
    ensures Stamp(t) == Fixed(t.year, 4) + Fixed(t.month, 2) + Fixed(t.day, 2) + "T"
                        + Fixed(t.hour, 2) + Fixed(t.minute, 2) + Fixed(t.second, 2) + "Z"
  {
    hide Fixed;
  }

  /** The stable name, or the database, a dot, the stamp and ".dump". */
  lemma DumpFileNameIs(db: string, keep: nat, t: UTC)
    ensures keep <= 1 ==> DumpFileName(db, keep, t) == db + ".dump"
    ensures keep > 1 ==> DumpFileName(db, keep, t) == db + "." + Stamp(t) + ".dump"
  {
    hide Stamp;
  }

  /** A retained copy's name is the database, a dot, something, and ".dump". */
  lemma CopyShape(db: string, name: string)
    ensures IsCopy(db, name) <==> exists middle: string :: middle != "" && name == db + "." + middle + ".dump"
  {
    if IsCopy(db, name) {
      var middle := name[|db| + 1..|name| - |SUFFIX|];
      assert name == name[..|db| + 1] + middle + name[|name| - |SUFFIX|..];
      assert middle != "" && name == db + "." + middle + ".dump";
    }
    if middle: string :| middle != "" && name == db + "." + middle + ".dump" {
      assert name[..|db| + 1] == db + ".";
      assert name[|name| - |SUFFIX|..] == SUFFIX;
      assert |name| > |StableName(db)|;
    }
  }

  /** A staging file's name is ".atomicfile-", digits, and ".tmp". */
  lemma TempShape(name: string)
    ensures IsTemp(name) <==>
      exists digits: string :: digits != "" && (forall i :: 0 <= i < |digits| ==> '0' <= digits[i] <= '9')
                               && name == ".atomicfile-" + digits + ".tmp"
  {
    if IsTemp(name) {
      var digits := name[|TEMP_PREFIX|..|name| - |TEMP_SUFFIX|];
      assert name == name[..|TEMP_PREFIX|] + digits + name[|name| - |TEMP_SUFFIX|..];
      assert digits != "" && name == ".atomicfile-" + digits + ".tmp";
    }
    if digits: string :| digits != "" && (forall i :: 0 <= i < |digits| ==> '0' <= digits[i] <= '9')
                         && name == ".atomicfile-" + digits + ".tmp" {
      assert name[..|TEMP_PREFIX|] == TEMP_PREFIX;
      assert name[|name| - |TEMP_SUFFIX|..] == TEMP_SUFFIX;
      assert name[|TEMP_PREFIX|..|name| - |TEMP_SUFFIX|] == digits;
    }
  }

  // Whose file is it.

  /** Every name the program gives a dump is one of its database's final names. */
  lemma DumpFileNameIsFinal(db: string, keep: nat, t: UTC)
    ensures IsFinal(db, DumpFileName(db, keep, t))
    ensures keep > 1 <==> IsCopy(db, DumpFileName(db, keep, t))
  {
    var n := DumpFileName(db, keep, t);
    if keep > 1 {
      assert n[..|db| + 1] == db + ".";
      assert n[|n| - |SUFFIX|..] == SUFFIX;
    }
  }

  lemma {:induction false} FixedIsDigits(n: nat, width: nat)
    ensures AllDigits(Fixed(n, width)) && '/' !in Fixed(n, width)
  {
    if width > 0 {
      FixedIsDigits(n / 10, width - 1);
    }
  }

  lemma DumpFileNameIsComponent(db: string, keep: nat, t: UTC)
    requires IsDatabase(db)
    ensures '/' !in DumpFileName(db, keep, t)
  {
    assert '/' !in db;
    hide Fixed, IsDatabase;
    FixedIsDigits(t.year, 4);
    FixedIsDigits(t.month, 2);
    FixedIsDigits(t.day, 2);
    FixedIsDigits(t.hour, 2);
    FixedIsDigits(t.minute, 2);
    FixedIsDigits(t.second, 2);
  }

  /** A final name starts with its database, and then a dot. */
  lemma FinalStart(db: string, name: string)
    requires IsFinal(db, name)
    ensures |db| < |name| && name[..|db|] == db && name[|db|] == '.'
    ensures db != "" ==> db[0] == name[0]
  {
    if IsCopy(db, name) {
      assert name[..|db| + 1] == db + ".";
      assert name[..|db|] == name[..|db| + 1][..|db|];
      assert name[|db|] == name[..|db| + 1][|db|];
    }
  }

  lemma NoDot(db: string)
    requires IsDatabase(db)
    ensures db != "" && db[0] != '.' && '.' !in db
  {
  }

  lemma DotInside(db: string, other: string, name: string)
    requires IsFinal(db, name) && IsFinal(other, name) && |db| < |other|
    ensures '.' in other
  {
    FinalStart(db, name);
    FinalStart(other, name);
    assert other[|db|] == name[|db|];
  }

  /** No file is a final name of two databases: identifiers have no dot. */
  lemma FinalNamesDisjoint(db: string, other: string, name: string)
    requires IsDatabase(db) && IsDatabase(other) && IsFinal(db, name) && IsFinal(other, name)
    ensures db == other
  {
    NoDot(db);
    NoDot(other);
    if |db| < |other| {
      DotInside(db, other, name);
    } else if |other| < |db| {
      DotInside(other, db, name);
    } else {
      FinalStart(db, name);
      FinalStart(other, name);
    }
  }

  lemma SuffixChar(name: string, suffix: string, i: nat)
    requires i < |suffix| <= |name|
    ensures HasSuffix(name, suffix) ==> name[|name| - |suffix| + i] == suffix[i]
  {
    assert name[|name| - |suffix|..][i] == name[|name| - |suffix| + i];
  }

  /** A staging file never has a dump's name, nor is the cycle record a staging file. */
  lemma TempIsNoDump(name: string)
    requires IsTemp(name)
    ensures forall db :: IsDatabase(db) ==> !IsFinal(db, name)
    ensures !HasSuffix(name, SUFFIX) && name != RECORD_NAME == ".pg-autodump-last-run"
  {
    assert name[0] == TEMP_PREFIX[0] && name[1] == TEMP_PREFIX[1];
    SuffixChar(name, TEMP_SUFFIX, 1);
    SuffixChar(name, SUFFIX, 2);
    forall db | IsDatabase(db)
      ensures !IsFinal(db, name)
    {
      NoDot(db);
      if IsFinal(db, name) {
        FinalStart(db, name);
      }
    }
  }
}
