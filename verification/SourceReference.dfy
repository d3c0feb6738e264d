/**
 * The reference that ties a snapshot layer to a dataset version, as text: how it is printed when a snapshot
 * is built and how it is read back, through library parsers that accept far more than is ever printed.
 */
module SourceReference {
  import opened Prelude

  // ----- Decimal numbers -----

  function Digit(n: nat): char
    requires n < 10
  {
    '0' + n as char
  }

  predicate IsDigit(c: char) { '0' <= c <= '9' }

  /** `str(n)` for n >= 0. */
  function Decimal(n: nat): string {
    if n < 10 then [Digit(n)] else Decimal(n / 10) + [Digit(n % 10)]
  }

  predicate AllDigits(text: string) { forall i | 0 <= i < |text| :: IsDigit(text[i]) }

  /** A positive number as it is printed: digits, the first of them not zero. */
  predicate CanonicalPositive(text: string) { text != "" && AllDigits(text) && text[0] != '0' }

  function ValueOf(text: string): nat
    requires AllDigits(text)
  {
    if text == "" then 0 else 10 * ValueOf(text[..|text| - 1]) + (text[|text| - 1] - '0') as nat
  }

  lemma {:induction false} DecimalReadsBack(n: nat)
    ensures AllDigits(Decimal(n)) && Decimal(n) != "" && ValueOf(Decimal(n)) == n
    ensures n > 0 ==> CanonicalPositive(Decimal(n))
  {
    if n < 10 {
      assert Decimal(n)[..0] == "";
    } else {
      DecimalReadsBack(n / 10);
      assert Decimal(n)[..|Decimal(n)| - 1] == Decimal(n / 10);
    }
  }

  lemma {:induction false} CanonicalPrintsBack(text: string)
    requires CanonicalPositive(text)
    ensures ValueOf(text) > 0 && Decimal(ValueOf(text)) == text
  {
    var init := text[..|text| - 1];
    if init == "" {
      assert ValueOf(init) == 0;
      assert text == [text[0]];
    } else {
      CanonicalPrintsBack(init);
      var digit := (text[|text| - 1] - '0') as nat;
      var n := 10 * ValueOf(init) + digit;
      assert n / 10 == ValueOf(init) && n % 10 == digit;
      assert text == init + [text[|text| - 1]];
    }
  }

  // ----- UUIDs -----

  type Nibble = n: nat | n < 16

  /** A UUID as its 32 hexadecimal digits. */
  type Uuid = u: seq<Nibble> | |u| == 32 witness seq(32, _ => 0)

  function HexDigit(n: Nibble): char {
    if n < 10 then '0' + n as char else 'a' + (n - 10) as char
  }

  predicate IsHexDigit(c: char) { '0' <= c <= '9' || 'a' <= c <= 'f' }

  function NibbleOf(c: char): Nibble
    requires IsHexDigit(c)
  {
    if c <= '9' then (c - '0') as nat else 10 + (c - 'a') as nat
  }

  /** Where the text form has its dashes, and which digit stands at another place. */
  predicate IsDash(i: int) { i == 8 || i == 13 || i == 18 || i == 23 }

  function DigitAt(i: int): int {
    if i < 8 then i else if i < 13 then i - 1 else if i < 18 then i - 2 else if i < 23 then i - 3 else i - 4
  }

  function TextIndex(k: int): int {
    if k < 8 then k else if k < 12 then k + 1 else if k < 16 then k + 2 else if k < 20 then k + 3 else k + 4
  }

  /** `str(uuid)`: lower-case digits in groups of 8, 4, 4, 4 and 12 (section 4 of RFC 9562). */
  function UuidText(u: Uuid): string {
    seq(36, i requires 0 <= i < 36 => if IsDash(i) then '-' else HexDigit(u[DigitAt(i)]))
  }

  predicate CanonicalUuid(text: string) {
    |text| == 36 && forall i | 0 <= i < 36 :: if IsDash(i) then text[i] == '-' else IsHexDigit(text[i])
  }

  function UuidOf(text: string): Uuid
    requires CanonicalUuid(text)
  {
    seq(32, k requires 0 <= k < 32 =>
      assert !IsDash(TextIndex(k));
      NibbleOf(text[TextIndex(k)]))
  }

  lemma UuidReadsBack(u: Uuid)
    ensures CanonicalUuid(UuidText(u)) && UuidOf(UuidText(u)) == u
  {
    var text := UuidText(u);
    forall k | 0 <= k < 32
      ensures UuidOf(text)[k] == u[k]
    {
      assert DigitAt(TextIndex(k)) == k && !IsDash(TextIndex(k));
    }
  }

  lemma UuidPrintsBack(text: string)
    requires CanonicalUuid(text)
    ensures UuidText(UuidOf(text)) == text
  {
    forall i | 0 <= i < 36
      ensures UuidText(UuidOf(text))[i] == text[i]
    {
      if !IsDash(i) {
        assert TextIndex(DigitAt(i)) == i;
      }
    }
  }

  // ----- Splitting -----

  /** `text.split(sep)`. */
  function Split(text: string, sep: char): (parts: seq<string>)
    ensures parts != []
  {
    if text == "" then [""]
    else
      var rest := Split(text[1..], sep);
      if text[0] == sep then [""] + rest else [[text[0]] + rest[0]] + rest[1..]
  }

  function Joined(parts: seq<string>, sep: char): string
    requires parts != []
  {
    if |parts| == 1 then parts[0] else parts[0] + [sep] + Joined(parts[1..], sep)
  }

  lemma {:induction false} SplitJoins(text: string, sep: char)
    ensures Joined(Split(text, sep), sep) == text
  {
    if text != "" {
      SplitJoins(text[1..], sep);
      var rest := Split(text[1..], sep);
      if text[0] == sep {
        assert ([""] + rest)[1..] == rest;
        assert text == "" + [sep] + text[1..];
      } else {
        var parts := [[text[0]] + rest[0]] + rest[1..];
        assert parts[1..] == rest[1..];
        assert Joined(parts, sep) == [text[0]] + Joined(rest, sep);
      }
    }
  }

  lemma {:induction false} SplitTakesFirst(first: string, rest: string, sep: char)
    requires sep !in first
    ensures Split(first + [sep] + rest, sep) == [first] + Split(rest, sep)
  {
    var text := first + [sep] + rest;
    if first == "" {
      assert text[1..] == rest;
    } else {
      assert text[1..] == first[1..] + [sep] + rest;
      SplitTakesFirst(first[1..], rest, sep);
      assert first == [first[0]] + first[1..];
    }
  }

  lemma {:induction false} SplitKeepsWhole(text: string, sep: char)
    requires sep !in text
    ensures Split(text, sep) == [text]
  {
    if text != "" {
      SplitKeepsWhole(text[1..], sep);
      assert text == [text[0]] + text[1..];
    }
  }

  // ----- The reference -----

  const PREFIX := "dataset-version"

  /** What a snapshot layer stores for a dataset version. */
  function Printed(id: Uuid, version: nat): string {
    PREFIX + ":" + UuidText(id) + ":v" + Decimal(version)
  }

  const DIGITS := "0123456789abcdef"

  /** What the text of a UUID looks like: lower-case digits, with dashes after 8, 4, 4 and 4 of them. */
  lemma UuidLooksLike(u: Uuid, i: nat)
    requires i < 36
    ensures |UuidText(u)| == 36
    ensures i == 8 || i == 13 || i == 18 || i == 23 ==> UuidText(u)[i] == '-'
    ensures i < 8 ==> UuidText(u)[i] == DIGITS[u[i]]
    ensures 8 < i < 13 ==> UuidText(u)[i] == DIGITS[u[i - 1]]
    ensures 13 < i < 18 ==> UuidText(u)[i] == DIGITS[u[i - 2]]
    ensures 18 < i < 23 ==> UuidText(u)[i] == DIGITS[u[i - 3]]
    ensures 23 < i ==> UuidText(u)[i] == DIGITS[u[i - 4]]
  {
  }

  /** And the text of a number: its last digit after the digits of the rest, with nothing for a rest of zero. */
  lemma DecimalLooksLike(n: nat, d: nat)
    requires d < 10
    ensures Decimal(10 * n + d) == (if n == 0 then "" else Decimal(n)) + [DIGITS[d]]
  {
    assert (10 * n + d) / 10 == n && (10 * n + d) % 10 == d;
  }

  /** A reference in full. */
  lemma ReferenceLooksLike(id: Uuid, version: nat)
    ensures Printed(id, version) == "dataset-version:" + UuidText(id) + ":v" + Decimal(version)
  {
    hide UuidText, Decimal;
    assert PREFIX + ":" == "dataset-version:";
  }

  /** The library parsers: whatever else they accept, they read back what is printed. */
  datatype Parsers = Parsers(uuid: string -> Option<Uuid>, integer: string -> Option<int>)
  {
    ghost predicate ReadWhatIsPrinted() {
      && (forall u: Uuid :: uuid(UuidText(u)) == Some(u))
      && (forall n: nat :: integer(Decimal(n)) == Some(n))
    }
  }

  datatype ReadError = FixedRoadSourceReadError

  /** `str(n)` for any integer. */
  function IntegerText(n: int): string {
    if n < 0 then "-" + Decimal(-n) else Decimal(n)
  }

  function SourceVersion(reference: string, lib: Parsers): Result<(Uuid, int), ReadError> {
    var parts := Split(reference, ':');
    if |parts| != 3 || parts[0] != PREFIX || !("v" <= parts[2]) then Err(FixedRoadSourceReadError)
    else
      var id, version := lib.uuid(parts[1]), lib.integer(parts[2][1..]);
      if id.None? || version.None? then Err(FixedRoadSourceReadError)
      else if UuidText(id.value) != parts[1] || version.value <= 0 || IntegerText(version.value) != parts[2][1..] then
        Err(FixedRoadSourceReadError)
      else Ok((id.value, version.value))
  }

  lemma SplitPrinted(id: Uuid, version: nat)
    ensures Split(Printed(id, version), ':') == [PREFIX, UuidText(id), "v" + Decimal(version)]
  {
    hide Decimal, UuidText, UuidOf, ValueOf;
    var tail := "v" + Decimal(version);
    UuidReadsBack(id);
    DecimalReadsBack(version);
    assert ':' !in UuidText(id);
    assert ':' !in tail;
    SplitKeepsWhole(tail, ':');
    SplitTakesFirst(UuidText(id), tail, ':');
    SplitTakesFirst(PREFIX, UuidText(id) + ":" + tail, ':');
    assert Printed(id, version) == PREFIX + [':'] + (UuidText(id) + ":" + tail);
  }

  /** Round trip, from the values: what is printed for a version is read back as that version. */
  lemma PrintedReadsBack(id: Uuid, version: nat, lib: Parsers)
    requires version > 0 && lib.ReadWhatIsPrinted()
    ensures SourceVersion(Printed(id, version), lib) == Ok((id, version))
  {
    hide Split, Printed, Decimal, UuidText;
    SplitPrinted(id, version);
    var tail := "v" + Decimal(version);
    assert tail[1..] == Decimal(version);
  }

  /** Round trip, from the text: whatever is accepted is, character for character, what would be printed. */
  lemma AcceptedPrintsBack(reference: string, lib: Parsers)
    requires SourceVersion(reference, lib).Ok?
    ensures var (id, version) := SourceVersion(reference, lib).value; version > 0 && Printed(id, version) == reference
  {
    var parts := Split(reference, ':');
    SplitJoins(reference, ':');
    assert parts[1..] == [parts[1], parts[2]] && parts[1..][1..] == [parts[2]];
    assert Joined(parts[1..], ':') == parts[1] + [':'] + parts[2];
    assert parts[2] == "v" + parts[2][1..];
    assert reference == PREFIX + ":" + (parts[1] + ":" + parts[2]);
  }

  /** A canonical reference, described by its characters alone. */
  predicate CanonicalReference(reference: string, uuid: string, version: string) {
    CanonicalUuid(uuid) && CanonicalPositive(version) && reference == PREFIX + ":" + uuid + ":v" + version
  }

  /** Exactly the canonical references are accepted, however lenient the library parsers are. */
  lemma AcceptsExactlyCanonical(reference: string, lib: Parsers)
    requires lib.ReadWhatIsPrinted()
    ensures SourceVersion(reference, lib).Ok? <==> exists uuid, version :: CanonicalReference(reference, uuid, version)
  {
    if SourceVersion(reference, lib).Ok? {
      AcceptedPrintsBack(reference, lib);
      var (id, version) := SourceVersion(reference, lib).value;
      UuidReadsBack(id);
      DecimalReadsBack(version);
      assert CanonicalReference(reference, UuidText(id), Decimal(version));
    }
    if uuid, version :| CanonicalReference(reference, uuid, version) {
      UuidPrintsBack(uuid);
      CanonicalPrintsBack(version);
      PrintedReadsBack(UuidOf(uuid), ValueOf(version), lib);
    }
  }

  /** Different versions never share a reference. */
  lemma PrintedIsInjective(a: Uuid, m: nat, b: Uuid, n: nat)
    ensures Printed(a, m) == Printed(b, n) ==> a == b && m == n
  {
    hide Split, Printed, Decimal, UuidText, UuidOf, ValueOf, CanonicalUuid;
    SplitPrinted(a, m);
    SplitPrinted(b, n);
    UuidReadsBack(a);
    UuidReadsBack(b);
    DecimalReadsBack(m);
    DecimalReadsBack(n);
    if Printed(a, m) == Printed(b, n) {
      assert ("v" + Decimal(m))[1..] == Decimal(m) && ("v" + Decimal(n))[1..] == Decimal(n);
    }
  }

  /** There are such parsers: the strict ones. */
  function StrictParsers(): Parsers {
    Parsers(text => if CanonicalUuid(text) then Some(UuidOf(text)) else None,
            text => if text != "" && AllDigits(text) then Some(ValueOf(text)) else None)
  }

  lemma StrictParsersReadWhatIsPrinted()
    ensures StrictParsers().ReadWhatIsPrinted()
  {
    forall u: Uuid
      ensures StrictParsers().uuid(UuidText(u)) == Some(u)
    {
      UuidReadsBack(u);
    }
    forall n: nat
      ensures StrictParsers().integer(Decimal(n)) == Some(n)
    {
      DecimalReadsBack(n);
    }
  }
}
