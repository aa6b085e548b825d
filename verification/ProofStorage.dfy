/**
 Borsh packages of proofs and their storage on chain: the Go encoder, the size
 rule for the account, the on-chain instruction and the reader.
 */
module ProofStorage {
  import opened Wrappers

  type Byte = x: int | 0 <= x < 256

  type Bytes = seq<Byte>

  const U32_LIMIT: int := 0x1_0000_0000

  datatype Package = Package(proof: Bytes, verifyingKey: Bytes, publicWitness: Bytes)

  /** The lengths a u32 prefix can hold. */
  predicate Encodable(p: Package) {
    |p.proof| < U32_LIMIT && |p.verifyingKey| < U32_LIMIT && |p.publicWitness| < U32_LIMIT
  }

  // ----- the format -----

  function LowByte(n: nat): Byte { n % 256 }

  /** Four bytes, least significant first; larger numbers lose their high part. */
  function U32(n: nat): (b: Bytes)
    ensures |b| == 4
  {
    [LowByte(n), LowByte(n / 256), LowByte(n / 65536), LowByte(n / 16777216)]
  }

  function LittleEndian(b0: nat, b1: nat, b2: nat, b3: nat): nat {
    b0 + 256 * b1 + 65536 * b2 + 16777216 * b3
  }

  function FromU32(b: Bytes): (n: nat)
    requires |b| == 4
    ensures n < U32_LIMIT
  {
    LittleEndian(b[0], b[1], b[2], b[3])
  }

  lemma U32RoundTrip(n: nat)
    requires n < U32_LIMIT
    ensures FromU32(U32(n)) == n
  {
    assert n == n % 256 + 256 * (n / 256);
    assert n / 256 == n / 256 % 256 + 256 * (n / 256 / 256);
    assert n / 256 / 256 == n / 65536 && n / 65536 / 256 == n / 16777216;
    assert n / 65536 == n / 65536 % 256 + 256 * (n / 65536 / 256);
  }

  lemma U32Unique(b: Bytes)
    requires |b| == 4
    ensures U32(FromU32(b)) == b
  {
    BytesOfNumber(b[0], b[1], b[2], b[3]);
  }

  lemma BytesOfNumber(b0: nat, b1: nat, b2: nat, b3: nat)
    requires b0 < 256 && b1 < 256 && b2 < 256 && b3 < 256
    ensures var n := LittleEndian(b0, b1, b2, b3);
            n % 256 == b0 && n / 256 % 256 == b1 && n / 65536 % 256 == b2 && n / 16777216 % 256 == b3
  {
    var n := LittleEndian(b0, b1, b2, b3);
    assert n / 256 == b1 + 256 * (b2 + 256 * b3);
    assert n / 65536 == b2 + 256 * b3;
  }

  function EncodeVec(v: Bytes): Bytes { U32(|v|) + v }

  function Encode(p: Package): Bytes {
    EncodeVec(p.proof) + EncodeVec(p.verifyingKey) + EncodeVec(p.publicWitness)
  }

  /** Reads one vector and returns it with what follows. */
  function ReadVec(b: Bytes): Option<(Bytes, Bytes)> {
    if |b| < 4 then None
    else
      var n := FromU32(b[..4]);
      if |b| - 4 < n then None else Some((b[4..4 + n], b[4 + n..]))
  }

  /** The three vectors at the front of a byte string, and what follows. */
  function ReadPackage(b: Bytes): Option<(Package, Bytes)> {
    var (proof, b1) :- ReadVec(b);
    var (vk, b2) :- ReadVec(b1);
    var (public, b3) :- ReadVec(b2);
    Some((Package(proof, vk, public), b3))
  }

  /** `try_from_slice`: nothing may follow. */
  function Parse(b: Bytes): Option<Package> {
    var (p, rest) :- ReadPackage(b);
    if rest == [] then Some(p) else None
  }

  lemma ReadVecAfterEncode(v: Bytes, rest: Bytes)
    requires |v| < U32_LIMIT
    ensures ReadVec(EncodeVec(v) + rest) == Some((v, rest))
  {
    var b := EncodeVec(v) + rest;
    U32RoundTrip(|v|);
    assert b[..4] == U32(|v|);
    assert b[4..4 + |v|] == v;
    assert b[4 + |v|..] == rest;
  }

  lemma EncodeAfterReadVec(b: Bytes)
    requires ReadVec(b).Some?
    ensures var (v, rest) := ReadVec(b).value; |v| < U32_LIMIT && b == EncodeVec(v) + rest
  {
    U32Unique(b[..4]);
    var n := FromU32(b[..4]);
    assert b == b[..4] + b[4..4 + n] + b[4 + n..];
  }

  lemma ReadAfterEncode(p: Package, rest: Bytes)
    requires Encodable(p)
    ensures ReadPackage(Encode(p) + rest) == Some((p, rest))
  {
    var w := EncodeVec(p.publicWitness) + rest;
    var v := EncodeVec(p.verifyingKey) + w;
    assert Encode(p) + rest == EncodeVec(p.proof) + v;
    ReadVecAfterEncode(p.proof, v);
    ReadVecAfterEncode(p.verifyingKey, w);
    ReadVecAfterEncode(p.publicWitness, rest);
  }

  /** Parsing is exact: a byte string is accepted as a package iff it is that package's encoding. */
  lemma ParseIsExact(b: Bytes, p: Package)
    ensures Parse(b) == Some(p) <==> Encodable(p) && b == Encode(p)
  {
    if Encodable(p) && b == Encode(p) {
      ReadAfterEncode(p, []);
      assert Encode(p) + [] == Encode(p);
    }
    if Parse(b) == Some(p) {
      EncodeAfterRead(b);
      assert Encode(p) + [] == Encode(p);
    }
    hide Encode, ReadPackage;
  }

  lemma EncodeAfterRead(b: Bytes)
    requires ReadPackage(b).Some?
    ensures var (p, rest) := ReadPackage(b).value; Encodable(p) && b == Encode(p) + rest
  {
    EncodeAfterReadVec(b);
    var (proof, b1) := ReadVec(b).value;
    EncodeAfterReadVec(b1);
    var (vk, b2) := ReadVec(b1).value;
    EncodeAfterReadVec(b2);
    var (w, b3) := ReadVec(b2).value;
    hide EncodeVec, ReadVec;
    Regroup(EncodeVec(proof), EncodeVec(vk), EncodeVec(w), b3);
  }

  lemma Regroup(a: Bytes, b: Bytes, c: Bytes, d: Bytes)
    ensures a + (b + (c + d)) == a + b + c + d
  {
  }

  /** No two packages share an encoding. */
  lemma EncodingIsUnique(p: Package, q: Package)
    requires Encodable(p) && Encodable(q) && Encode(p) == Encode(q)
    ensures p == q
  {
    ParseIsExact(Encode(p), p);
    ParseIsExact(Encode(p), q);
  }

  /** The format: length, proof, length, verifying key, length, public witness, and nothing else. */
  lemma EncodingLayout(p: Package)
    ensures var b, v, w := Encode(p), |p.proof|, |p.proof| + |p.verifyingKey|;
            && |b| == 12 + w + |p.publicWitness|
            && b[..4] == U32(|p.proof|) && b[4..4 + v] == p.proof
            && b[4 + v..8 + v] == U32(|p.verifyingKey|) && b[8 + v..8 + w] == p.verifyingKey
            && b[8 + w..12 + w] == U32(|p.publicWitness|) && b[12 + w..] == p.publicWitness
  {
    hide U32;
  }

  /** A length prefix is little-endian. */
  lemma U32IsLittleEndian(n: nat)
    requires n < U32_LIMIT
    ensures var b := U32(n);
            var b0: nat, b1: nat, b2: nat, b3: nat := b[0], b[1], b[2], b[3];
            b0 + 256 * b1 + 65_536 * b2 + 16_777_216 * b3 == n
  {
    U32RoundTrip(n);
    hide U32;
  }

  // ----- Go: serialising and sizing -----

  method SerializeBorsh(p: Package) returns (out: Bytes)
    ensures out == Encode(p)
  {
    out := U32(|p.proof|) + p.proof;
    out := out + (U32(|p.verifyingKey|) + p.verifyingKey);
    out := out + (U32(|p.publicWitness|) + p.publicWitness);
  }

  /**
   `calculateRequiredAccountSpace`, where `float64(n) * 1.5` is exact: a multiple of
   8, at least 2048, covering the data and its margin, with no more than rounding on top.
   */
  method CalculateRequiredAccountSpace(dataSize: nat) returns (totalSize: nat)
    ensures totalSize % 8 == 0 && totalSize >= 2048 && totalSize >= dataSize
    ensures dataSize <= 1000 ==> totalSize == 2048
    ensures 1000 < dataSize <= 10000 ==> dataSize + 2048 <= totalSize < dataSize + 2056
    ensures 10000 < dataSize ==> dataSize * 3 / 2 <= totalSize < dataSize * 3 / 2 + 8
  {
    if dataSize > 10000 {
      totalSize := dataSize * 3 / 2;
    } else if dataSize > 1000 {
      totalSize := dataSize + 2048;
    } else {
      totalSize := dataSize + 1024;
    }
    if totalSize % 8 != 0 {
      RoundedUp(totalSize);
      totalSize := totalSize + (8 - totalSize % 8);
    }
    if totalSize < 2048 {
      totalSize := 2048;
    }
  }

  lemma RoundedUp(n: nat)
    ensures (n + (8 - n % 8)) % 8 == 0
  {
    assert n + (8 - n % 8) == 8 * (n / 8 + 1);
  }

  // ----- on chain -----

  datatype ProgramResult = Success | InvalidInstructionData | AccountDataTooSmall

  /** What the instruction answers and leaves in the account. */
  function Processed(data: Bytes, account: Bytes): (ProgramResult, Bytes) {
    match Parse(data)
    case None => (InvalidInstructionData, account)
    case Some(p) =>
      if |account| < |Encode(p)| then (AccountDataTooSmall, account)
      else (Success, Encode(p) + account[|Encode(p)|..])
  }

  method ProcessInstruction(data: Bytes, account: array<Byte>) returns (r: ProgramResult)
    modifies account
    ensures (r, account[..]) == Processed(data, old(account[..]))
  {
    var parsed := Parse(data);
    if parsed == None { return InvalidInstructionData; }
    var bytes := Encode(parsed.value);
    if account.Length < |bytes| { return AccountDataTooSmall; }
    WriteFront(account, bytes);
    return Success;
  }

  /** `serialize` into the borrowed account buffer. */
  method WriteFront(account: array<Byte>, bytes: Bytes)
    requires |bytes| <= account.Length
    modifies account
    ensures account[..] == bytes + old(account[..])[|bytes|..]
  {
    for i := 0 to |bytes|
      invariant forall j | 0 <= j < i :: account[j] == bytes[j]
      invariant forall j | i <= j < account.Length :: account[j] == old(account[j])
    {
      account[i] := bytes[i];
    }
  }

  /** The instruction succeeds iff the data is the encoding of a package and fits; it then holds exactly that data. */
  lemma ProcessingIsExact(data: Bytes, account: Bytes)
    ensures Processed(data, account).0 == Success <==>
            |data| <= |account| && exists p :: Encodable(p) && data == Encode(p)
    ensures Processed(data, account).0 == Success ==> Processed(data, account).1 == data + account[|data|..]
    ensures Processed(data, account).0 != Success ==> Processed(data, account).1 == account
    ensures Processed(data, account).0 == AccountDataTooSmall ==> |account| < |data|
  {
    match Parse(data)
    case None =>
      forall p ensures !(Encodable(p) && data == Encode(p)) { ParseIsExact(data, p); }
    case Some(p) => ParseIsExact(data, p);
  }

  // ----- reader -----

  /** The reader's step: the first `proofLen` bytes of the account, decoded. */
  function ReadBack(account: Bytes, proofLen: nat): Option<Package> {
    if |account| < proofLen then None
    else
      var (p, _) :- ReadPackage(account[..proofLen]);
      Some(p)
  }

  /** Encoder, sizing, instruction and reader together. */
  method StoreAndRead(p: Package) returns (r: ProgramResult, back: Option<Package>)
    requires Encodable(p)
    ensures r == Success && back == Some(p)
  {
    var data := SerializeBorsh(p);
    var space := CalculateRequiredAccountSpace(|data|);
    var account := new Byte[space](_ => 0);
    hide Encode, Processed, ReadBack;
    StorageRoundTrip(p, account[..]);
    r := ProcessInstruction(data, account);
    back := ReadBack(account[..], |data|);
  }

  /** On any account large enough, storing a package and reading its length back gives the same package. */
  lemma StorageRoundTrip(p: Package, account: Bytes)
    requires Encodable(p) && |Encode(p)| <= |account|
    ensures Processed(Encode(p), account).0 == Success
    ensures ReadBack(Processed(Encode(p), account).1, |Encode(p)|) == Some(p)
  {
    ParseIsExact(Encode(p), p);
    var stored := Processed(Encode(p), account).1;
    assert stored[..|Encode(p)|] == Encode(p);
    ReadAfterEncode(p, []);
    assert Encode(p) + [] == Encode(p);
  }

  /** The reader finds the package exactly when it asks for at least the bytes that were stored. */
  lemma ReadBackIsExact(p: Package, account: Bytes, n: nat)
    requires Encodable(p) && |Encode(p)| <= |account| && n <= |account|
    ensures ReadBack(Processed(Encode(p), account).1, n) == Some(p) <==> |Encode(p)| <= n
  {
    ParseIsExact(Encode(p), p);
    var stored := Processed(Encode(p), account).1;
    assert stored == Encode(p) + account[|Encode(p)|..];
    hide Encode, Processed;
    if |Encode(p)| <= n {
      assert stored[..n] == Encode(p) + stored[|Encode(p)|..n];
      ReadAfterEncode(p, stored[|Encode(p)|..n]);
    } else if ReadBack(stored, n).Some? {
      EncodeAfterRead(stored[..n]);
    }
  }

  // ----- log frames -----

  /** "LOG:" */
  const LOG_PREFIX: Bytes := [0x4C, 0x4F, 0x47, 0x3A]

  /** "LOG:" read as a length, and the shortest package whose proof has that length. */
  const LOG_LENGTH: nat := 977751884
  const SHORTEST_LOG_PACKAGE: nat := 977751896

  /** A log frame shorter than that is never taken for a package. */
  lemma ShortLogFramesAreRejected(body: Bytes)
    requires |LOG_PREFIX + body| < SHORTEST_LOG_PACKAGE
    ensures Parse(LOG_PREFIX + body) == None
  {
    var b := LOG_PREFIX + body;
    assert b[..4] == LOG_PREFIX;
    assert FromU32(b[..4]) == LOG_LENGTH;
    if ReadVec(b).Some? {
      var rest := ReadVec(b).value.1;
      assert |rest| == |b| - 4 - LOG_LENGTH;
    }
  }

  /** The lengths of log frames that are packages: from that one to the two longest remaining vectors. */
  lemma LogFrameLengths(n: nat)
    ensures (exists body: Bytes :: |LOG_PREFIX + body| == n && Parse(LOG_PREFIX + body).Some?) <==>
            SHORTEST_LOG_PACKAGE <= n <= SHORTEST_LOG_PACKAGE + 2 * (U32_LIMIT - 1)
  {
    if body: Bytes :| |LOG_PREFIX + body| == n && Parse(LOG_PREFIX + body).Some? { LogFrameIsBounded(body); }
    if SHORTEST_LOG_PACKAGE <= n <= SHORTEST_LOG_PACKAGE + 2 * (U32_LIMIT - 1) { LongLogFramesCanBePackages(n); }
  }

  lemma LogFrameIsBounded(body: Bytes)
    requires Parse(LOG_PREFIX + body).Some?
    ensures SHORTEST_LOG_PACKAGE <= |LOG_PREFIX + body| <= SHORTEST_LOG_PACKAGE + 2 * (U32_LIMIT - 1)
  {
    var b := LOG_PREFIX + body;
    assert b[..4] == LOG_PREFIX;
    assert FromU32(b[..4]) == LOG_LENGTH;
    var p := Parse(b).value;
    ParseIsExact(b, p);
    assert |p.proof| == LOG_LENGTH;
  }

  /** From the shortest on, some log frame of each such length is a package. */
  lemma LongLogFramesCanBePackages(n: nat)
    requires SHORTEST_LOG_PACKAGE <= n <= SHORTEST_LOG_PACKAGE + 2 * (U32_LIMIT - 1)
    ensures exists body: Bytes :: |LOG_PREFIX + body| == n && Parse(LOG_PREFIX + body).Some?
  {
    hide U32, Parse, Spaces;
    var extra := n - SHORTEST_LOG_PACKAGE;
    var proof, vk := Spaces(LOG_LENGTH), Spaces(if extra < U32_LIMIT then 0 else extra - (U32_LIMIT - 1));
    var public := Spaces(extra - |vk|);
    LengthPrefixes();
    FrameIsPackage(proof, vk, public);
    var body := proof + (U32(|vk|) + vk) + (U32(|public|) + public);
    FrontFirst(LOG_PREFIX, proof, U32(|vk|) + vk, U32(|public|) + public);
    assert |LOG_PREFIX + body| == n;
  }

  lemma FrontFirst(a: Bytes, b: Bytes, c: Bytes, d: Bytes)
    ensures a + (b + c + d) == a + b + c + d
  {
  }

  // ----- log frames that hold JSON -----

  /** Marshalled JSON holds no byte below the space. */
  predicate IsJsonText(body: Bytes) { forall i | 0 <= i < |body| :: 0x20 <= body[i] }

  /** Four spaces read as a length. */
  const SPACES_LENGTH: nat := 538976288

  /** The shortest package that starts with "LOG:" and goes on in JSON. */
  const SHORTEST_JSON_PACKAGE: nat := 2055704472

  function Spaces(n: nat): (s: Bytes)
    ensures |s| == n
  {
    seq(n, _ => 0x20)
  }

  lemma TextLengthIsLarge(b: Bytes)
    requires ReadVec(b).Some? && IsJsonText(b)
    ensures SPACES_LENGTH <= |ReadVec(b).value.0| && IsJsonText(ReadVec(b).value.1)
    ensures |b| == 4 + |ReadVec(b).value.0| + |ReadVec(b).value.1|
  {
    var four := b[..4];
    assert 0x20 <= four[0] == b[0] && 0x20 <= four[1] == b[1] && 0x20 <= four[2] == b[2] && 0x20 <= four[3] == b[3];
  }

  /**
   The frame of a log message, whatever its level, text and time, is not taken for a package
   below 2,055,704,472 bytes.
   */
  lemma LogMessagesAreRejected(body: Bytes)
    requires IsJsonText(body) && |LOG_PREFIX + body| < SHORTEST_JSON_PACKAGE
    ensures Parse(LOG_PREFIX + body) == None
  {
    var b := LOG_PREFIX + body;
    if Parse(b).Some? {
      assert b[..4] == LOG_PREFIX;
      assert FromU32(b[..4]) == LOG_LENGTH;
      var (_, b1) := ReadVec(b).value;
      assert b1 == body[LOG_LENGTH..];
      TextLengthIsLarge(b1);
      var (_, b2) := ReadVec(b1).value;
      TextLengthIsLarge(b2);
    }
  }

  lemma SpacesJoin(a: nat, b: nat)
    ensures Spaces(a) + Spaces(b) == Spaces(a + b)
  {
  }

  /** The two length prefixes that are needed are bytes of the frame as it stands. */
  lemma LengthPrefixes()
    ensures U32(LOG_LENGTH) == LOG_PREFIX && U32(SPACES_LENGTH) == Spaces(4)
  {
    hide Spaces;
    FourSpaces();
    assert LowByte(SPACES_LENGTH) == LowByte(SPACES_LENGTH / 256) == 0x20;
    assert LowByte(SPACES_LENGTH / 65536) == LowByte(SPACES_LENGTH / 16777216) == 0x20;
  }

  lemma FourSpaces()
    ensures Spaces(4) == [0x20, 0x20, 0x20, 0x20]
  {
  }

  lemma Regrouped(a: Bytes, b: Bytes, c: Bytes, d: Bytes, e: Bytes, f: Bytes, g: Bytes)
    ensures a + b + (c + d + e + d + f) + g == a + (b + c) + (d + e) + (d + (f + g))
  {
  }

  lemma FrameIsPackage(proof: Bytes, vk: Bytes, public: Bytes)
    requires |proof| < U32_LIMIT && |vk| < U32_LIMIT && |public| < U32_LIMIT
    ensures Parse(U32(|proof|) + proof + (U32(|vk|) + vk) + (U32(|public|) + public)).Some?
  {
    var p := Package(proof, vk, public);
    assert Encode(p) == U32(|proof|) + proof + (U32(|vk|) + vk) + (U32(|public|) + public);
    hide Encode, U32, Parse;
    ParseIsExact(Encode(p), p);
  }

  /**
   At that length the frame of a log message can be a package: whatever JSON comes
   before and after the message text, blanks between them make it one.
   */
  lemma LogMessagesCanBePackages(start: Bytes, end: Bytes)
    requires |start| <= LOG_LENGTH && |end| <= SPACES_LENGTH
    ensures var frame := LOG_PREFIX + start + Spaces(SHORTEST_JSON_PACKAGE - 4 - |start| - |end|) + end;
            |frame| == SHORTEST_JSON_PACKAGE && Parse(frame).Some?
  {
    hide Parse, U32, Spaces;
    var n := SPACES_LENGTH;
    var front, vk, back := Spaces(LOG_LENGTH - |start|), Spaces(n), Spaces(n - |end|);
    SpacesJoin(|front|, 4);
    SpacesJoin(|front| + 4, n);
    SpacesJoin(|front| + 4 + n, 4);
    SpacesJoin(|front| + 4 + n + 4, |back|);
    LengthPrefixes();
    Regrouped(LOG_PREFIX, start, front, Spaces(4), vk, back, end);
    FrameIsPackage(start + front, vk, back + end);
  }
}
