/**
 From an assigned Go value to a circuit variable, in the three code bases, and
 from a circuit variable to the field element gnark puts in the witness.
 */
module Values {
  import opened Wrappers
  import opened ScalarField
  import opened Schema
  import Decimal

  /** A value of Go type `any`, as far as the conversions tell values apart. */
  datatype Raw =
    | RNil
    | RInt(i: int)
    | RFloat(f: real)
    | RNumber(text: string, number: real)
    | RBool(b: bool)
    | RStr(s: string)
    | RBig(n: nat)
    | ROther(json: Json)

  /** What a conversion hands to gnark. */
  datatype Variable = VInt(i: int) | VText(s: string) | VRaw(raw: Raw)

  /**
   Library functions the conversions call: SHA-256 read as a big-endian integer,
   `strconv.ParseFloat`, `strconv.ParseBool`, the two `time.Parse` layouts,
   `fmt.Sprint` of values other than strings and big integers, and base-0 parsing
   of texts other than decimal numerals.
   */
  datatype Library = Library(
    sha256: string -> nat,
    numeral: string -> Option<real>,
    boolean: string -> Option<bool>,
    timestamp: string -> Option<int>,
    sprint: Raw -> string,
    otherNumeral: string -> Option<int>)

  /** `Timestamped` is the code shared by pkg and the wallet, `Calendar` that of blockchain-client. */
  datatype Dialect = Timestamped | Calendar

  /** `strings.EqualFold(kind, "string")`; the long s folds to s. */
  predicate FoldsToString(kind: string) {
    && |kind| == 6
    && kind[0] in {'s', 'S', '\U{017F}'}
    && kind[1] in {'t', 'T'} && kind[2] in {'r', 'R'} && kind[3] in {'i', 'I'}
    && kind[4] in {'n', 'N'} && kind[5] in {'g', 'G'}
  }

  function Sprint(lib: Library, raw: Raw): string {
    match raw
    case RStr(s) => s
    case RBig(n) => Decimal.Print(n)
    case _ => lib.sprint(raw)
  }

  function ConvertToInt(lib: Library, raw: Raw): Option<int> {
    match raw
    case RInt(i) => Some(Wrap64(i))
    case RFloat(f) => Some(ToInt64(f))
    case RNumber(_, r) => Some(ToInt64(r))
    case RBig(n) => Some(ToInt64(n as real))
    case RStr(s) =>
      if s == "" then None else
      var r :- lib.numeral(s);
      Some(ToInt64(r))
    case _ => None
  }

  function ConvertToBool(lib: Library, raw: Raw): Option<int> {
    match raw
    case RBool(b) => Some(if b then 1 else 0)
    case RStr(s) =>
      var b :- lib.boolean(s);
      Some(if b then 1 else 0)
    case _ => None
  }

  /** `normalizeString`: strings and values with a `String` method. */
  function StringOf(raw: Raw): Option<string> {
    match raw
    case RStr(s) => Some(s)
    case RNumber(text, _) => Some(text)
    case RBig(n) => Some(Decimal.Print(n))
    case _ => None
  }

  /** `convertToVariable`. */
  function ConvertToVariable(d: Dialect, lib: Library, kind: string, raw: Raw): Option<Variable> {
    if raw == RNil then None
    else if kind == "integer" || kind == "number" then
      var i :- ConvertToInt(lib, raw); Some(VInt(i))
    else if kind == "boolean" then
      var i :- ConvertToBool(lib, raw); Some(VInt(i))
    else if kind == "string" then
      if d == Timestamped then Some(VText(Sprint(lib, raw)))
      else var s :- StringOf(raw); Some(VInt(lib.sha256(s) % P))
    else if kind == "date" then
      match raw
      case RStr(s) => (match lib.timestamp(s) case Some(t) => Some(VInt(t)) case None => Some(VText(s)))
      case _ => Some(VText(Sprint(lib, raw)))
    else Some(VRaw(raw))
  }

  /** The conversion inside `AssignValues`; pkg and the wallet hash raw strings first. */
  function Convert(d: Dialect, lib: Library, kind: string, raw: Raw): Option<Variable> {
    if d == Timestamped && FoldsToString(kind) && raw.RStr? then Some(VInt(lib.sha256(raw.s)))
    else ConvertToVariable(d, lib, kind, raw)
  }

  /** Base-0 parsing. */
  function ParseBase0(lib: Library, s: string): Option<int> {
    if Decimal.IsNumeral(s) then Some(Decimal.Value(s)) else lib.otherNumeral(s)
  }

  /** The integer a variable stands for before reduction, or `None` where gnark rejects it. */
  function Denote(lib: Library, v: Variable): Option<int> {
    match v
    case VInt(i) => Some(i)
    case VText(s) => ParseBase0(lib, s)
    case VRaw(RInt(i)) => Some(i)
    case VRaw(RBig(n)) => Some(n)
    case VRaw(RStr(s)) => ParseBase0(lib, s)
    case VRaw(_) => None
  }

  /** The wallet's step before `AssignValues`: string fields are replaced by their hash. */
  function PreHash(lib: Library, kind: string, raw: Raw): Raw {
    if kind == "string" then RBig(lib.sha256(Sprint(lib, raw))) else raw
  }

  /** The field element a given string ends up as, along each of the three code paths. */
  function WalletString(lib: Library, s: string): Option<int> {
    var v :- Convert(Timestamped, lib, "string", PreHash(lib, "string", RStr(s)));
    Denote(lib, v)
  }

  function PkgString(lib: Library, s: string): Option<int> {
    var v :- Convert(Timestamped, lib, "string", RStr(s));
    Denote(lib, v)
  }

  function ChainString(lib: Library, s: string): Option<int> {
    var v :- Convert(Calendar, lib, "string", RStr(s));
    Denote(lib, v)
  }

  /**
   The wallet's hash-print-parse path, pkg's direct hash and blockchain-client's
   reduced hash are the same field element, so two strings compare equal in a
   circuit iff their hashes agree modulo P.
   */
  lemma StringEncodingsAgree(lib: Library, s: string, t: string)
    ensures WalletString(lib, s).Some? && PkgString(lib, s).Some? && ChainString(lib, s).Some?
    ensures Encode(WalletString(lib, s).value) == Encode(PkgString(lib, s).value) == Encode(ChainString(lib, s).value)
    ensures Same(Field, WalletString(lib, s).value, PkgString(lib, t).value) <==> lib.sha256(s) % P == lib.sha256(t) % P
  {
    Decimal.ParseAfterPrint(lib.sha256(s));
  }

  // ----- what a value becomes -----

  /** A text in ASCII lower case. */
  function Lower(s: string): string {
    seq(|s|, i requires 0 <= i < |s| => if 'A' <= s[i] <= 'Z' then s[i] + 32 as char else s[i])
  }

  predicate IsWhole(v: Variable, f: real) { InRange(f) ==> v.VInt? && Truncates(f, v.i) }

  /** A value of a field of some type, in the three numeric shapes, and the variable it becomes. */
  predicate NumberBecomes(lib: Library, raw: Raw, v: Variable) {
    match raw
    case RInt(i) => IsInt64(i) ==> v == VInt(i)
    case RFloat(f) => IsWhole(v, f)
    case RNumber(_, f) => IsWhole(v, f)
    case RBig(n) => n <= MAX_INT64 ==> v == VInt(n)
    case RStr(s) => s != "" && lib.numeral(s).Some? && IsWhole(v, lib.numeral(s).value)
    case _ => false
  }

  predicate BooleanBecomes(lib: Library, raw: Raw, v: Variable) {
    match raw
    case RBool(b) => v == VInt(if b then 1 else 0)
    case RStr(s) => (lib.boolean(s) == Some(true) && v == VInt(1)) || (lib.boolean(s) == Some(false) && v == VInt(0))
    case _ => false
  }

  /** A timestamp where the text is one, and otherwise the value as text. */
  predicate DateBecomes(lib: Library, raw: Raw, v: Variable) {
    match raw
    case RStr(s) => v == if lib.timestamp(s).Some? then VInt(lib.timestamp(s).value) else VText(s)
    case RBig(n) => v == VText(Decimal.Print(n))
    case _ => v == VText(lib.sprint(raw))
  }

  /**
   Texts are hashed.  pkg and the wallet take any other value as the numeral it prints
   as, such as the hash that the wallet puts in place of a text; blockchain-client
   hashes the text of a number.
   */
  predicate StringBecomes(d: Dialect, lib: Library, raw: Raw, v: Variable) {
    match raw
    case RStr(s) => v == VInt(if d == Calendar then lib.sha256(s) % P else lib.sha256(s))
    case RBig(n) => v == if d == Calendar then VInt(lib.sha256(Decimal.Print(n)) % P) else VText(Decimal.Print(n))
    case RNumber(text, _) => v == if d == Calendar then VInt(lib.sha256(text) % P) else VText(lib.sprint(raw))
    case _ => d == Timestamped && v == VText(lib.sprint(raw))
  }

  /**
   The variable that a converted value is, per field type and shape of the value; the
   listed shapes are the only ones that convert for a number or a boolean.
   */
  predicate Becomes(d: Dialect, lib: Library, kind: string, raw: Raw, v: Variable) {
    && raw != RNil
    && (kind == "integer" || kind == "number" ==> NumberBecomes(lib, raw, v))
    && (kind == "boolean" ==> BooleanBecomes(lib, raw, v))
    && (kind == "date" ==> DateBecomes(lib, raw, v))
    && (kind == "string" ==> StringBecomes(d, lib, raw, v))
    && (d == Timestamped && Lower(kind) == "string" && raw.RStr? ==> v == VInt(lib.sha256(raw.s)))
    && (kind !in {"integer", "number", "boolean", "date", "string"} ==>
          v == VRaw(raw) || (d == Timestamped && raw.RStr? && v == VInt(lib.sha256(raw.s))))
  }

  lemma LowerFolds(kind: string)
    requires Lower(kind) == "string"
    ensures FoldsToString(kind)
  {
    var s := "string";
    assert |kind| == 6;
    assert forall i | 0 <= i < 6 :: Lower(kind)[i] == s[i];
    assert s[0] == 's' && s[1] == 't' && s[2] == 'r' && s[3] == 'i' && s[4] == 'n' && s[5] == 'g';
    LowerLetter(kind, 0);
    LowerLetter(kind, 1);
    LowerLetter(kind, 2);
    LowerLetter(kind, 3);
    LowerLetter(kind, 4);
    LowerLetter(kind, 5);
  }

  lemma LowerLetter(kind: string, i: nat)
    requires i < |kind| && 'a' <= Lower(kind)[i] <= 'z'
    ensures kind[i] == Lower(kind)[i] || kind[i] as int + 32 == Lower(kind)[i] as int
  {
  }

  lemma NumbersConvert(lib: Library, raw: Raw)
    ensures ConvertToInt(lib, raw).Some? ==> NumberBecomes(lib, raw, VInt(ConvertToInt(lib, raw).value))
  {
    match raw
    case RFloat(f) => if InRange(f) { ToInt64Truncates(f); }
    case RNumber(_, f) => if InRange(f) { ToInt64Truncates(f); }
    case RBig(n) => assert n <= MAX_INT64 ==> ToInt64(n as real) == n;
    case RStr(s) =>
      if lib.numeral(s).Some? && InRange(lib.numeral(s).value) { ToInt64Truncates(lib.numeral(s).value); }
    case _ =>
  }

  /** Whatever converts becomes what its type and shape say. */
  lemma ConvertedBecomes(d: Dialect, lib: Library, kind: string, raw: Raw)
    requires Convert(d, lib, kind, raw).Some?
    ensures Becomes(d, lib, kind, raw, Convert(d, lib, kind, raw).value)
  {
    if Lower(kind) == "string" { LowerFolds(kind); }
    assert FoldsToString("string");
    NumbersConvert(lib, raw);
    assert Lower("integer")[0] == 'i' && Lower("number")[0] == 'n' && Lower("boolean")[0] == 'b'
        && Lower("date")[0] == 'd';
    hide Lower, NumberBecomes, ConvertToInt, Decimal.Print, Decimal.IsNumeral, Decimal.Value;
    FoldsOnlyStrings(kind);
    hide FoldsToString;
  }

  lemma FoldsOnlyStrings(kind: string)
    ensures kind in {"integer", "number", "boolean", "date"} ==> !FoldsToString(kind)
  {
    assert |"integer"| == 7 && |"boolean"| == 7 && |"date"| == 4 && "number"[0] == 'n';
  }

  /** The shapes of value that a field of some type takes. */
  predicate HasShape(d: Dialect, lib: Library, kind: string, raw: Raw) {
    && raw != RNil
    && (kind == "integer" || kind == "number" ==>
          || raw.RInt? || raw.RFloat? || raw.RNumber? || raw.RBig?
          || (raw.RStr? && raw.s != "" && lib.numeral(raw.s).Some?))
    && (kind == "boolean" ==> raw.RBool? || (raw.RStr? && lib.boolean(raw.s).Some?))
    && (kind == "string" && d == Calendar ==> raw.RStr? || raw.RNumber? || raw.RBig?)
  }

  lemma ConvertsIff(d: Dialect, lib: Library, kind: string, raw: Raw)
    ensures Convert(d, lib, kind, raw).Some? <==> HasShape(d, lib, kind, raw)
  {
    FoldsOnlyStrings(kind);
    hide FoldsToString;
  }
}
