/**
 * Checkpoint provenance: the byte sequences fed to SHA-256 for a stage's resolved input and configuration.
 *
 * Text is modelled by its UTF-8 bytes. Every part is tagged as text or bytes and carries its length in
 * eight big-endian bytes, so that a decoder can take the preimage apart again.
 */
module CheckpointEncoding {
  import opened Prelude

  /** The UTF-8 bytes of a string. */
  type Text = Bytes

  datatype HashPart = TextPart(text: Text) | BytesPart(bytes: Bytes)

  /** The fingerprint of one direct dependency's output. */
  datatype DependencyOutput = DependencyOutput(stageName: Text, fingerprint: Text)

  datatype CheckpointError = DuplicateDependency | DependencyOrderMismatch | EmptyProvenance | Overflow

  const UINT64: nat := 0x1_0000_0000_0000_0000

  // ----- Eight-byte lengths -----

  function BigEndian(n: nat, width: nat): (b: Bytes)
    ensures |b| == width
  {
    if width == 0 then [] else BigEndian(n / 256, width - 1) + [(n % 256) as byte]
  }

  function FromBigEndian(b: Bytes): nat {
    if b == [] then 0 else FromBigEndian(b[..|b| - 1]) * 256 + b[|b| - 1] as nat
  }

  function Pow256(width: nat): nat { if width == 0 then 1 else 256 * Pow256(width - 1) }

  lemma {:induction false} BigEndianRoundTrip(n: nat, width: nat)
    requires n < Pow256(width)
    ensures FromBigEndian(BigEndian(n, width)) == n
  {
    if width > 0 {
      BigEndianRoundTrip(n / 256, width - 1);
      assert BigEndian(n, width)[..width - 1] == BigEndian(n / 256, width - 1);
    }
  }

  lemma {:induction false} FromBigEndianRoundTrip(b: Bytes)
    ensures FromBigEndian(b) < Pow256(|b|)
    ensures BigEndian(FromBigEndian(b), |b|) == b
  {
    if b != [] {
      FromBigEndianRoundTrip(b[..|b| - 1]);
      assert b == b[..|b| - 1] + [b[|b| - 1]];
    }
  }

  lemma Pow256Of8()
    ensures Pow256(8) == UINT64
  {
    assert Pow256(2) == 65536;
    assert Pow256(4) == 65536 * 65536;
    assert Pow256(6) == 65536 * 65536 * 65536;
  }

  function Length(n: nat): (b: Bytes)
    ensures |b| == 8
  {
    BigEndian(n, 8)
  }

  /** `digest.update` of a payload behind its length. */
  function Framed(payload: Bytes): Bytes { Length(|payload|) + payload }

  /** Read a length off the front. */
  function DecodeLength(b: Bytes): Option<(nat, Bytes)> {
    if |b| < 8 then None else Some((FromBigEndian(b[..8]), b[8..]))
  }

  function DecodeFramed(b: Bytes): (r: Option<(Bytes, Bytes)>)
    ensures r.Some? ==> |r.value.1| < |b|
  {
    match DecodeLength(b)
    case None => None
    case Some((n, rest)) => if n > |rest| then None else Some((rest[..n], rest[n..]))
  }

  lemma LengthDecodes(n: nat, rest: Bytes)
    requires n < UINT64
    ensures DecodeLength(Length(n) + rest) == Some((n, rest))
  {
    hide BigEndian, FromBigEndian, Pow256;
    Pow256Of8();
    BigEndianRoundTrip(n, 8);
    assert (Length(n) + rest)[..8] == Length(n);
  }

  lemma LengthEncodes(b: Bytes)
    requires DecodeLength(b).Some?
    ensures var (n, rest) := DecodeLength(b).value; n < UINT64 && Length(n) + rest == b
  {
    hide BigEndian, FromBigEndian, Pow256;
    Pow256Of8();
    FromBigEndianRoundTrip(b[..8]);
  }

  lemma FramedDecodes(payload: Bytes, rest: Bytes)
    requires |payload| < UINT64
    ensures DecodeFramed(Framed(payload) + rest) == Some((payload, rest))
  {
    assert Framed(payload) + rest == Length(|payload|) + (payload + rest);
    LengthDecodes(|payload|, payload + rest);
    hide Length, DecodeLength;
  }

  lemma FramedEncodes(b: Bytes)
    requires DecodeFramed(b).Some?
    ensures var (payload, rest) := DecodeFramed(b).value; |payload| < UINT64 && Framed(payload) + rest == b
  {
    hide Length, DecodeLength;
    LengthEncodes(b);
    var (n, tail) := DecodeLength(b).value;
    assert tail == tail[..n] + tail[n..];
    assert Framed(tail[..n]) + tail[n..] == Length(n) + (tail[..n] + tail[n..]);
  }

  // ----- Parts -----

  const TEXT_MARKER: byte := 115
  const BYTES_MARKER: byte := 98

  function Payload(part: HashPart): Bytes { if part.TextPart? then part.text else part.bytes }

  function EncodePart(part: HashPart): Bytes {
    [if part.TextPart? then TEXT_MARKER else BYTES_MARKER] + Framed(Payload(part))
  }

  function EncodeParts(parts: seq<HashPart>): Bytes {
    if parts == [] then [] else EncodePart(parts[0]) + EncodeParts(parts[1..])
  }

  /** What `_update_parts` feeds. */
  function PartsBlock(parts: seq<HashPart>): Bytes { Length(|parts|) + EncodeParts(parts) }

  function DecodePart(b: Bytes): (r: Option<(HashPart, Bytes)>)
    ensures r.Some? ==> |r.value.1| < |b|
  {
    if b == [] then None
    else
      match DecodeFramed(b[1..])
      case None => None
      case Some((payload, rest)) =>
        if b[0] == TEXT_MARKER then Some((TextPart(payload), rest))
        else if b[0] == BYTES_MARKER then Some((BytesPart(payload), rest))
        else None
  }

  function DecodeParts(n: nat, b: Bytes): Option<(seq<HashPart>, Bytes)>
    decreases n
  {
    if n == 0 then Some(([], b))
    else
      match DecodePart(b)
      case None => None
      case Some((part, rest)) =>
        match DecodeParts(n - 1, rest)
        case None => None
        case Some((parts, end)) => Some(([part] + parts, end))
  }

  function DecodePartsBlock(b: Bytes): Option<(seq<HashPart>, Bytes)> {
    match DecodeLength(b)
    case None => None
    case Some((n, rest)) => DecodeParts(n, rest)
  }

  /** Every length involved fits in eight bytes. */
  predicate PartsFit(parts: seq<HashPart>) {
    |parts| < UINT64 && forall i | 0 <= i < |parts| :: |Payload(parts[i])| < UINT64
  }

  lemma PartDecodes(part: HashPart, rest: Bytes)
    requires |Payload(part)| < UINT64
    ensures DecodePart(EncodePart(part) + rest) == Some((part, rest))
  {
    hide Framed, DecodeFramed;
    assert (EncodePart(part) + rest)[1..] == Framed(Payload(part)) + rest;
    FramedDecodes(Payload(part), rest);
  }

  lemma PartEncodes(b: Bytes)
    requires DecodePart(b).Some?
    ensures var (part, rest) := DecodePart(b).value; |Payload(part)| < UINT64 && EncodePart(part) + rest == b
  {
    hide Framed, DecodeFramed;
    FramedEncodes(b[1..]);
  }

  lemma {:induction false} PartsDecode(parts: seq<HashPart>, rest: Bytes)
    requires forall i | 0 <= i < |parts| :: |Payload(parts[i])| < UINT64
    ensures DecodeParts(|parts|, EncodeParts(parts) + rest) == Some((parts, rest))
  {
    hide EncodePart, DecodePart, Payload;
    if parts == [] {
      assert EncodeParts(parts) + rest == rest;
    } else {
      var tail := EncodeParts(parts[1..]) + rest;
      assert EncodeParts(parts) + rest == EncodePart(parts[0]) + tail;
      PartDecodes(parts[0], tail);
      PartsDecode(parts[1..], rest);
      assert parts == [parts[0]] + parts[1..];
    }
  }

  lemma {:induction false} PartsEncode(n: nat, b: Bytes)
    requires DecodeParts(n, b).Some?
    ensures var (parts, rest) := DecodeParts(n, b).value;
      && |parts| == n && EncodeParts(parts) + rest == b
      && forall i | 0 <= i < |parts| :: |Payload(parts[i])| < UINT64
    decreases n
  {
    hide EncodePart, DecodePart, Payload;
    if n > 0 {
      var (part, tail) := DecodePart(b).value;
      PartEncodes(b);
      PartsEncode(n - 1, tail);
      var (parts, rest) := DecodeParts(n - 1, tail).value;
      assert ([part] + parts)[1..] == parts;
      assert EncodeParts([part] + parts) + rest == EncodePart(part) + (EncodeParts(parts) + rest);
    }
  }

  lemma PartsBlockDecodes(parts: seq<HashPart>, rest: Bytes)
    requires PartsFit(parts)
    ensures DecodePartsBlock(PartsBlock(parts) + rest) == Some((parts, rest))
  {
    hide Length, DecodeLength, EncodeParts, DecodeParts;
    assert PartsBlock(parts) + rest == Length(|parts|) + (EncodeParts(parts) + rest);
    LengthDecodes(|parts|, EncodeParts(parts) + rest);
    PartsDecode(parts, rest);
  }

  lemma PartsBlockEncodes(b: Bytes)
    requires DecodePartsBlock(b).Some?
    ensures var (parts, rest) := DecodePartsBlock(b).value; PartsFit(parts) && PartsBlock(parts) + rest == b
  {
    hide Length, DecodeLength, EncodeParts, DecodeParts, Payload;
    LengthEncodes(b);
    var (n, tail) := DecodeLength(b).value;
    PartsEncode(n, tail);
    var (parts, rest) := DecodeParts(n, tail).value;
    assert PartsBlock(parts) + rest == Length(n) + (EncodeParts(parts) + rest);
  }

  // ----- Dependency outputs -----

  function EncodeDependency(dep: DependencyOutput): Bytes { Framed(dep.stageName) + Framed(dep.fingerprint) }

  function EncodeDependencies(deps: seq<DependencyOutput>): Bytes {
    if deps == [] then []
    else EncodeDependency(deps[0]) + EncodeDependencies(deps[1..])
  }

  function DependenciesBlock(deps: seq<DependencyOutput>): Bytes { Length(|deps|) + EncodeDependencies(deps) }

  function DecodeDependencies(n: nat, b: Bytes): Option<(seq<DependencyOutput>, Bytes)>
    decreases n
  {
    if n == 0 then Some(([], b))
    else
      match DecodeFramed(b)
      case None => None
      case Some((name, afterName)) =>
        match DecodeFramed(afterName)
        case None => None
        case Some((fingerprint, rest)) =>
          match DecodeDependencies(n - 1, rest)
          case None => None
          case Some((deps, end)) => Some(([DependencyOutput(name, fingerprint)] + deps, end))
  }

  predicate DependencyFits(dep: DependencyOutput) { |dep.stageName| < UINT64 && |dep.fingerprint| < UINT64 }

  predicate DependenciesFit(deps: seq<DependencyOutput>) {
    |deps| < UINT64 && forall i | 0 <= i < |deps| :: DependencyFits(deps[i])
  }

  lemma {:induction false} DependenciesDecode(deps: seq<DependencyOutput>, rest: Bytes)
    requires forall i | 0 <= i < |deps| :: DependencyFits(deps[i])
    ensures DecodeDependencies(|deps|, EncodeDependencies(deps) + rest) == Some((deps, rest))
  {
    hide Framed, DecodeFramed;
    if deps == [] {
      assert EncodeDependencies(deps) + rest == rest;
    } else {
      var dep := deps[0];
      assert DependencyFits(dep);
      var tail := EncodeDependencies(deps[1..]) + rest;
      assert EncodeDependencies(deps) + rest == Framed(dep.stageName) + (Framed(dep.fingerprint) + tail);
      FramedDecodes(dep.stageName, Framed(dep.fingerprint) + tail);
      FramedDecodes(dep.fingerprint, tail);
      DependenciesDecode(deps[1..], rest);
      assert deps == [dep] + deps[1..];
    }
  }

  lemma {:induction false} DependenciesEncode(n: nat, b: Bytes)
    requires DecodeDependencies(n, b).Some?
    ensures var (deps, rest) := DecodeDependencies(n, b).value;
      && |deps| == n && EncodeDependencies(deps) + rest == b
      && forall i | 0 <= i < |deps| :: DependencyFits(deps[i])
    decreases n
  {
    hide Framed, DecodeFramed;
    if n > 0 {
      var (name, afterName) := DecodeFramed(b).value;
      var (fingerprint, tail) := DecodeFramed(afterName).value;
      FramedEncodes(b);
      FramedEncodes(afterName);
      DependenciesEncode(n - 1, tail);
      var (deps, rest) := DecodeDependencies(n - 1, tail).value;
      var dep := DependencyOutput(name, fingerprint);
      assert ([dep] + deps)[1..] == deps;
      assert EncodeDependencies([dep] + deps) + rest == Framed(name) + (Framed(fingerprint) + (EncodeDependencies(deps) + rest));
    }
  }

  // ----- Whole preimages -----

  /** One byte per character: the ASCII encoding of the fixed texts below. */
  function Ascii(s: string): (b: Bytes)
    ensures |b| == |s| && forall i | 0 <= i < |s| :: b[i] == (s[i] as int % 256) as byte
  {
    seq(|s|, i requires 0 <= i < |s| => (s[i] as int % 256) as byte)
  }

  const SCHEME := "urban-development-generator:checkpoint-provenance:"
  const INPUT_NAMESPACE := "resolved-stage-input:v1"
  const CONFIG_NAMESPACE := "resolved-stage-config:v1"

  /** What `_new_digest` feeds first. */
  function Header(namespace: string): (b: Bytes)
    requires namespace == INPUT_NAMESPACE || namespace == CONFIG_NAMESPACE
    ensures |b| == |SCHEME| + |namespace| + 1
  {
    Ascii(SCHEME) + Ascii(namespace) + [0]
  }

  function InputPreimage(parts: seq<HashPart>, deps: seq<DependencyOutput>): Bytes {
    Header(INPUT_NAMESPACE) + (PartsBlock(parts) + DependenciesBlock(deps))
  }

  function ConfigPreimage(parts: seq<HashPart>): Bytes {
    Header(CONFIG_NAMESPACE) + PartsBlock(parts)
  }

  /** A length is written with its most significant byte first. */
  lemma LengthLooksLike(n: nat)
    requires n < 0x1_0000
    ensures Length(n) == [0, 0, 0, 0, 0, 0, (n / 256) as byte, (n % 256) as byte]
  {
    assert BigEndian(n, 8) == BigEndian(n / 256, 7) + [(n % 256) as byte];
    assert BigEndian(n / 256, 7) == BigEndian(0, 6) + [(n / 256) as byte];
    assert BigEndian(0, 6) == BigEndian(0, 3) + [0, 0, 0] && BigEndian(0, 3) == [0, 0, 0];
  }

  /** A part is tagged `s` for text and `b` for bytes, then comes its length, then its bytes. */
  lemma PartLooksLike(bytes: Bytes)
    ensures EncodePart(TextPart(bytes)) == Ascii("s") + Length(|bytes|) + bytes
    ensures EncodePart(BytesPart(bytes)) == Ascii("b") + Length(|bytes|) + bytes
  {
    hide Length;
    assert Ascii("s") == [115] && Ascii("b") == [98];
  }

  /** The preimages in full: scheme and purpose, a zero byte, the parts behind their number, and the outputs behind theirs. */
  lemma PreimagesLookLike(parts: seq<HashPart>, deps: seq<DependencyOutput>)
    ensures InputPreimage(parts, deps) ==
      Ascii("urban-development-generator:checkpoint-provenance:") + Ascii("resolved-stage-input:v1") + [0]
      + Length(|parts|) + EncodeParts(parts) + Length(|deps|) + EncodeDependencies(deps)
    ensures ConfigPreimage(parts) ==
      Ascii("urban-development-generator:checkpoint-provenance:") + Ascii("resolved-stage-config:v1") + [0]
      + Length(|parts|) + EncodeParts(parts)
    ensures deps != [] ==>
      EncodeDependencies(deps)
      == Length(|deps[0].stageName|) + deps[0].stageName + Length(|deps[0].fingerprint|) + deps[0].fingerprint + EncodeDependencies(deps[1..])
    ensures parts != [] ==> EncodeParts(parts) == EncodePart(parts[0]) + EncodeParts(parts[1..])
    ensures EncodeParts([]) == [] && EncodeDependencies([]) == []
  {
    hide Ascii, Length;
  }

  /** Take an input preimage apart; anything left over is an error. */
  function DecodeInput(b: Bytes): Option<(seq<HashPart>, seq<DependencyOutput>)> {
    var header := Header(INPUT_NAMESPACE);
    if !(header <= b) then None
    else
      match DecodePartsBlock(b[|header|..])
      case None => None
      case Some((parts, rest)) =>
        match DecodeLength(rest)
        case None => None
        case Some((n, tail)) =>
          match DecodeDependencies(n, tail)
          case None => None
          case Some((deps, end)) => if end == [] then Some((parts, deps)) else None
  }

  function DecodeConfig(b: Bytes): Option<seq<HashPart>> {
    var header := Header(CONFIG_NAMESPACE);
    if !(header <= b) then None
    else
      match DecodePartsBlock(b[|header|..])
      case None => None
      case Some((parts, rest)) => if rest == [] then Some(parts) else None
  }

  /** The decoder recovers exactly the tagged parts and the ordered dependency outputs. */
  lemma InputDecodes(parts: seq<HashPart>, deps: seq<DependencyOutput>)
    requires PartsFit(parts) && DependenciesFit(deps)
    ensures DecodeInput(InputPreimage(parts, deps)) == Some((parts, deps))
  {
    hide Header, PartsBlock, DecodePartsBlock, Length, DecodeLength, EncodeDependencies, DecodeDependencies;
    var b, header := InputPreimage(parts, deps), Header(INPUT_NAMESPACE);
    assert b[|header|..] == PartsBlock(parts) + DependenciesBlock(deps);
    PartsBlockDecodes(parts, DependenciesBlock(deps));
    LengthDecodes(|deps|, EncodeDependencies(deps));
    assert EncodeDependencies(deps) + [] == EncodeDependencies(deps);
    DependenciesDecode(deps, []);
  }

  /** And it accepts nothing else: what it decodes is what encodes to those bytes. */
  lemma InputEncodes(b: Bytes)
    requires DecodeInput(b).Some?
    ensures var (parts, deps) := DecodeInput(b).value;
      PartsFit(parts) && DependenciesFit(deps) && InputPreimage(parts, deps) == b
  {
    hide Header, PartsBlock, DecodePartsBlock, Length, DecodeLength, EncodeDependencies, DecodeDependencies, PartsFit;
    var header := Header(INPUT_NAMESPACE);
    var body := b[|header|..];
    assert b == header + body;
    PartsBlockEncodes(body);
    var (parts, rest) := DecodePartsBlock(body).value;
    LengthEncodes(rest);
    var (n, tail) := DecodeLength(rest).value;
    DependenciesEncode(n, tail);
    var (deps, end) := DecodeDependencies(n, tail).value;
    assert EncodeDependencies(deps) + [] == EncodeDependencies(deps);
  }

  lemma ConfigDecodes(parts: seq<HashPart>)
    requires PartsFit(parts)
    ensures DecodeConfig(ConfigPreimage(parts)) == Some(parts)
  {
    hide Header, PartsBlock, DecodePartsBlock;
    assert ConfigPreimage(parts)[|Header(CONFIG_NAMESPACE)|..] == PartsBlock(parts);
    assert PartsBlock(parts) + [] == PartsBlock(parts);
    PartsBlockDecodes(parts, []);
  }

  lemma ConfigEncodes(b: Bytes)
    requires DecodeConfig(b).Some?
    ensures var parts := DecodeConfig(b).value; PartsFit(parts) && ConfigPreimage(parts) == b
  {
    hide Header, PartsBlock, DecodePartsBlock, PartsFit;
    var header := Header(CONFIG_NAMESPACE);
    var body := b[|header|..];
    assert b == header + body;
    PartsBlockEncodes(body);
    var (parts, rest) := DecodePartsBlock(body).value;
    assert PartsBlock(parts) + [] == PartsBlock(parts);
  }

  /** No input preimage is a configuration preimage: the namespaces differ in the first letter they do not share. */
  lemma NamespacesAreDisjoint(parts: seq<HashPart>, deps: seq<DependencyOutput>, config: seq<HashPart>)
    ensures InputPreimage(parts, deps) != ConfigPreimage(config)
  {
    hide PartsBlock, DependenciesBlock, Ascii;
    var i := |"resolved-stage-"|;
    assert INPUT_NAMESPACE[i] == 'i' && CONFIG_NAMESPACE[i] == 'c';
    assert InputPreimage(parts, deps)[|SCHEME| + i] == Ascii(INPUT_NAMESPACE)[i];
    assert ConfigPreimage(config)[|SCHEME| + i] == Ascii(CONFIG_NAMESPACE)[i];
  }

  // ----- The hashes -----

  predicate HasDuplicates(names: seq<Text>) {
    exists i, j | 0 <= i < j < |names| :: names[i] == names[j]
  }

  function NamesOf(deps: seq<DependencyOutput>): seq<Text> {
    seq(|deps|, i requires 0 <= i < |deps| => deps[i].stageName)
  }

  /** `build_resolved_input_hash`: the refusals in their order, then the digest. */
  function InputHash(parts: seq<HashPart>, expected: seq<Text>, deps: seq<DependencyOutput>): Result<Digest, CheckpointError> {
    if HasDuplicates(expected) then Err(DuplicateDependency)
    else if NamesOf(deps) != expected then Err(DependencyOrderMismatch)
    else if parts == [] && deps == [] then Err(EmptyProvenance)
    else if !PartsFit(parts) || !DependenciesFit(deps) then Err(Overflow)
    else Ok(Sha256(InputPreimage(parts, deps)))
  }

  function ConfigHash(parts: seq<HashPart>): Result<Digest, CheckpointError> {
    if !PartsFit(parts) then Err(Overflow) else Ok(Sha256(ConfigPreimage(parts)))
  }

  /** When there is a hash, what it is the digest of, and when there is none, why. */
  lemma HashesExactlyWhen(parts: seq<HashPart>, expected: seq<Text>, deps: seq<DependencyOutput>)
    ensures var r, named := InputHash(parts, expected, deps), |deps| == |expected| && forall i | 0 <= i < |deps| :: deps[i].stageName == expected[i];
      && (r.Ok? <==> Distinct(expected) && named && (parts != [] || deps != []) && PartsFit(parts) && DependenciesFit(deps))
      && (r.Ok? ==> r.value == Sha256(InputPreimage(parts, deps)))
      && (r == Err(DuplicateDependency) <==> !Distinct(expected))
      && (r == Err(DependencyOrderMismatch) <==> Distinct(expected) && !named)
      && (r == Err(EmptyProvenance) <==> expected == [] && parts == [] && deps == [])
    ensures ConfigHash(parts) == if PartsFit(parts) then Ok(Sha256(ConfigPreimage(parts))) else Err(Overflow)
  {
    hide InputPreimage, ConfigPreimage, PartsFit, DependenciesFit;
  }

  /**
   * The hash identifies its input: equal input hashes come from the same parts (text told from bytes) and
   * the same dependency outputs in the same order, so also the same expected dependencies.
   */
  lemma InputHashIsInjective(parts: seq<HashPart>, expected: seq<Text>, deps: seq<DependencyOutput>,
                             parts': seq<HashPart>, expected': seq<Text>, deps': seq<DependencyOutput>)
    requires InputHash(parts, expected, deps).Ok?
    requires InputHash(parts, expected, deps) == InputHash(parts', expected', deps')
    ensures parts == parts' && deps == deps' && expected == expected'
  {
    hide InputPreimage, DecodeInput, PartsFit, DependenciesFit;
    InputDecodes(parts, deps);
    InputDecodes(parts', deps');
  }

  lemma ConfigHashIsInjective(parts: seq<HashPart>, parts': seq<HashPart>)
    requires ConfigHash(parts).Ok? && ConfigHash(parts) == ConfigHash(parts')
    ensures parts == parts'
  {
    hide ConfigPreimage, DecodeConfig, PartsFit;
    ConfigDecodes(parts);
    ConfigDecodes(parts');
  }

  lemma InputAndConfigHashesDiffer(parts: seq<HashPart>, expected: seq<Text>, deps: seq<DependencyOutput>, config: seq<HashPart>)
    requires InputHash(parts, expected, deps).Ok? && ConfigHash(config).Ok?
    ensures InputHash(parts, expected, deps) != ConfigHash(config)
  {
    hide InputPreimage, ConfigPreimage, PartsFit, DependenciesFit;
    NamespacesAreDisjoint(parts, deps, config);
  }

  // ----- The builders -----

  lemma AppendInside(a: Bytes, b: Bytes, c: Bytes, d: Bytes)
    ensures a + (b + c) + d == a + (b + (c + d))
  {
  }

  /** A running SHA-256. */
  class DigestWriter {
    var fed: Bytes

    /** `_new_digest`. */
    constructor (namespace: string)
      requires namespace == INPUT_NAMESPACE || namespace == CONFIG_NAMESPACE
      ensures fed == Header(namespace)
    {
      hide Ascii;
      fed := Ascii(SCHEME) + Ascii(namespace) + [0];
    }

    method Update(data: Bytes)
      modifies this
      ensures fed == old(fed) + data
    {
      fed := fed + data;
    }

    /** `len(...).to_bytes(8, "big")`, which overflows from 2^64 on. */
    method UpdateLength(n: nat) returns (fits: bool)
      modifies this
      ensures fits == (n < UINT64)
      ensures fed == if fits then old(fed) + Length(n) else old(fed)
    {
      fits := n < UINT64;
      if fits {
        Update(Length(n));
      }
    }

    method UpdateText(text: Text) returns (fits: bool)
      modifies this
      ensures fits == (|text| < UINT64)
      ensures fits ==> fed == old(fed) + Framed(text)
    {
      fits := UpdateLength(|text|);
      if fits {
        Update(text);
        assert old(fed) + Length(|text|) + text == old(fed) + Framed(text);
      }
    }

    method UpdatePart(part: HashPart) returns (fits: bool)
      modifies this
      ensures fits == (|Payload(part)| < UINT64)
      ensures fits ==> fed == old(fed) + EncodePart(part)
    {
      hide Framed;
      Update([if part.TextPart? then TEXT_MARKER else BYTES_MARKER]);
      fits := UpdateText(Payload(part));
    }

    method UpdateParts(parts: seq<HashPart>) returns (fits: bool)
      modifies this
      ensures fits == PartsFit(parts)
      ensures fits ==> fed == old(fed) + PartsBlock(parts)
    {
      hide Length, EncodePart, Payload;
      ghost var start := fed;
      fits := UpdateLength(|parts|);
      if !fits {
        return;
      }
      assert Length(|parts|) + EncodeParts([]) == Length(|parts|);
      for i := 0 to |parts|
        invariant fits && |parts| < UINT64
        invariant forall k | 0 <= k < i :: |Payload(parts[k])| < UINT64
        invariant fed == start + (Length(|parts|) + EncodeParts(parts[..i]))
      {
        EncodePartsAppends(parts[..i], parts[i]);
        AppendInside(start, Length(|parts|), EncodeParts(parts[..i]), EncodePart(parts[i]));
        assert parts[..i + 1] == parts[..i] + [parts[i]];
        fits := UpdatePart(parts[i]);
        if !fits {
          return;
        }
      }
      assert parts[..|parts|] == parts;
    }
  }

  lemma {:induction false} EncodePartsAppends(parts: seq<HashPart>, part: HashPart)
    ensures EncodeParts(parts + [part]) == EncodeParts(parts) + EncodePart(part)
  {
    hide EncodePart;
    if parts == [] {
      assert [part][1..] == [];
      assert EncodeParts([part]) == EncodePart(part) + EncodeParts([]);
    } else {
      assert (parts + [part])[1..] == parts[1..] + [part];
      EncodePartsAppends(parts[1..], part);
    }
  }

  lemma {:induction false} EncodeDependenciesAppends(deps: seq<DependencyOutput>, dep: DependencyOutput)
    ensures EncodeDependencies(deps + [dep]) == EncodeDependencies(deps) + EncodeDependency(dep)
  {
    hide EncodeDependency;
    if deps == [] {
      assert [dep][1..] == [];
      assert EncodeDependencies([dep]) == EncodeDependency(dep) + EncodeDependencies([]);
    } else {
      assert (deps + [dep])[1..] == deps[1..] + [dep];
      EncodeDependenciesAppends(deps[1..], dep);
    }
  }

  method BuildConfigHash(parts: seq<HashPart>) returns (r: Result<Digest, CheckpointError>)
    ensures r == ConfigHash(parts)
  {
    hide Header, PartsBlock, PartsFit;
    var digest := new DigestWriter(CONFIG_NAMESPACE);
    var fits := digest.UpdateParts(parts);
    r := if fits then Ok(Sha256(digest.fed)) else Err(Overflow);
  }

  /** `_require_dependency_names`: a set of the names seen so far finds a duplicate exactly when there is one. */
  method FindDuplicate(names: seq<Text>) returns (found: bool)
    ensures found == HasDuplicates(names)
  {
    var seen: set<Text> := {};
    for i := 0 to |names|
      invariant forall n :: n in seen <==> n in names[..i]
      invariant !HasDuplicates(names[..i])
    {
      if names[i] in seen {
        var k :| 0 <= k < i && names[k] == names[i];
        return true;
      }
      seen := seen + {names[i]};
      assert names[..i + 1] == names[..i] + [names[i]];
    }
    assert names[..|names|] == names;
    found := false;
  }

  method BuildResolvedInputHash(parts: seq<HashPart>, expected: seq<Text>, deps: seq<DependencyOutput>)
    returns (r: Result<Digest, CheckpointError>)
    ensures r == InputHash(parts, expected, deps)
  {
    hide Header, PartsBlock, PartsFit, Length, Framed, DependenciesFit, HasDuplicates;
    var duplicate := FindDuplicate(expected);
    if duplicate {
      return Err(DuplicateDependency);
    }
    if NamesOf(deps) != expected {
      return Err(DependencyOrderMismatch);
    }
    if parts == [] && deps == [] {
      return Err(EmptyProvenance);
    }
    var digest := new DigestWriter(INPUT_NAMESPACE);
    var fits := digest.UpdateParts(parts);
    if !fits {
      return Err(Overflow);
    }
    fits := UpdateDependencies(digest, deps);
    if !fits {
      return Err(Overflow);
    }
    assert Header(INPUT_NAMESPACE) + PartsBlock(parts) + DependenciesBlock(deps) == InputPreimage(parts, deps);
    r := Ok(Sha256(digest.fed));
  }

  method UpdateDependency(digest: DigestWriter, dep: DependencyOutput) returns (fits: bool)
    modifies digest
    ensures fits == DependencyFits(dep)
    ensures fits ==> digest.fed == old(digest.fed) + EncodeDependency(dep)
  {
    hide Framed;
    fits := digest.UpdateText(dep.stageName);
    if fits {
      fits := digest.UpdateText(dep.fingerprint);
    }
  }

  method UpdateDependencies(digest: DigestWriter, deps: seq<DependencyOutput>) returns (fits: bool)
    modifies digest
    ensures fits == DependenciesFit(deps)
    ensures fits ==> digest.fed == old(digest.fed) + DependenciesBlock(deps)
  {
    hide Length, EncodeDependency, DependencyFits;
    ghost var start := digest.fed;
    fits := digest.UpdateLength(|deps|);
    if !fits {
      return;
    }
    assert Length(|deps|) + EncodeDependencies([]) == Length(|deps|);
    for i := 0 to |deps|
      invariant fits && |deps| < UINT64
      invariant forall k | 0 <= k < i :: DependencyFits(deps[k])
      invariant digest.fed == start + (Length(|deps|) + EncodeDependencies(deps[..i]))
    {
      EncodeDependenciesAppends(deps[..i], deps[i]);
      AppendInside(start, Length(|deps|), EncodeDependencies(deps[..i]), EncodeDependency(deps[i]));
      assert deps[..i + 1] == deps[..i] + [deps[i]];
      fits := UpdateDependency(digest, deps[i]);
      if !fits {
        return;
      }
    }
    assert deps[..|deps|] == deps;
  }
}
