/**
 * The error taxonomy of the zvariant value-encoding crate
 * (zvariant/src/error.rs): the `MaxDepthExceeded` tag, the fourteen-variant
 * `Error` enum, and its hand-written `PartialEq`, `Error::source`,
 * `Display`, `Clone`, serde `custom` constructors and `From<io::Error>`.
 */
module ZvariantError {

  import opened Wrappers
  import opened Decimal

  // ---------------------------------------------------------------------------
  // Payload types defined outside error.rs. Their internals are not part of
  // the model; each is compared by its own `Eq` implementation, modelled as
  // mathematical equality. `io::Error` has no equality at all.
  // ---------------------------------------------------------------------------

  /** `crate::Signature`. */
  type Signature(==, !new)

  /** `crate::serialized::Format`. */
  type Format(==, !new)

  /** `crate::signature::Error`. */
  type SignatureError(==, !new)

  /** `std::str::Utf8Error`. */
  type Utf8Error(==, !new)

  /** `std::io::Error`: no `PartialEq`. */
  type IoError(!new)

  /**
   * `std::sync::Arc<T>`: an immutable, shared allocation. Its identity is the
   * reference itself; `Arc::clone` hands out the same reference.
   */
  class Arc<T> {
    const inner: T

    constructor (value: T)
      ensures inner == value
    {
      inner := value;
    }
  }

  /**
   * The `Display` implementations of the foreign payloads, which error.rs
   * calls but does not define (`io::Error`, `Utf8Error`, `Signature`,
   * `Format`, `signature::Error`).
   */
  datatype Formatters = Formatters(
    io: IoError -> string,
    utf8: Utf8Error -> string,
    signature: Signature -> string,
    format: Format -> string,
    signatureError: SignatureError -> string)

  // ---------------------------------------------------------------------------
  // MaxDepthExceeded
  // ---------------------------------------------------------------------------

  /** Which nesting limit tripped. Equality is the derived one: by tag. */
  datatype MaxDepthExceeded = Structure | Array | Container

  /** `impl Display for MaxDepthExceeded`. */
  function MaxDepthMessage(max: MaxDepthExceeded): string {
    match max
    case Structure => "Maximum allowed depth for structures in encoding was exceeded"
    case Array => "Maximum allowed depth for arrays in encoding was exceeded"
    case Container => "Maximum allowed depth for containers in encoding was exceeded"
  }

  /** The three messages are pairwise distinct: the text identifies the limit. */
  lemma MaxDepthMessageInjective(a: MaxDepthExceeded, b: MaxDepthExceeded)
    ensures MaxDepthMessage(a) == MaxDepthMessage(b) <==> a == b
  {
  }

  // ---------------------------------------------------------------------------
  // Error
  // ---------------------------------------------------------------------------

  datatype Error =
    | Message(text: string)
    | InputOutput(io: Arc<IoError>)
    | IncorrectType
    | Utf8(utf8: Utf8Error)
    | PaddingNot0(padding: U8)
    | UnknownFd
    | MissingFramingOffset
    | IncompatibleFormat(signature: Signature, format: Format)
    | SignatureMismatch(provided: Signature, expected: string)
    | OutOfBounds
    | MaxDepthExceeded(max: MaxDepthExceeded)
    | SignatureParse(parseError: SignatureError)
    | EmptyStructure
    | InvalidObjectPath

  /** The variant of an error, without its payload (Rust's discriminant). */
  datatype ErrorKind =
    | MessageKind | InputOutputKind | IncorrectTypeKind | Utf8Kind | PaddingNot0Kind
    | UnknownFdKind | MissingFramingOffsetKind | IncompatibleFormatKind
    | SignatureMismatchKind | OutOfBoundsKind | MaxDepthExceededKind
    | SignatureParseKind | EmptyStructureKind | InvalidObjectPathKind

  function Kind(e: Error): ErrorKind {
    match e
    case Message(_) => MessageKind
    case InputOutput(_) => InputOutputKind
    case IncorrectType => IncorrectTypeKind
    case Utf8(_) => Utf8Kind
    case PaddingNot0(_) => PaddingNot0Kind
    case UnknownFd => UnknownFdKind
    case MissingFramingOffset => MissingFramingOffsetKind
    case IncompatibleFormat(_, _) => IncompatibleFormatKind
    case SignatureMismatch(_, _) => SignatureMismatchKind
    case OutOfBounds => OutOfBoundsKind
    case MaxDepthExceeded(_) => MaxDepthExceededKind
    case SignatureParse(_) => SignatureParseKind
    case EmptyStructure => EmptyStructureKind
    case InvalidObjectPath => InvalidObjectPathKind
  }

  /**
   * `impl PartialEq for Error`. Two errors are equal exactly when they are
   * the same variant with equal payloads, except that an `InputOutput` error
   * equals nothing, not even itself.
   */
  function Eq(a: Error, b: Error): (r: bool)
    ensures r <==> !a.InputOutput? && a == b
  {
    match (a, b)
    case (Message(msg), Message(other)) => msg == other
    case (IncorrectType, IncorrectType) => true
    case (Utf8(msg), Utf8(other)) => msg == other
    case (PaddingNot0(p), PaddingNot0(other)) => p == other
    case (UnknownFd, UnknownFd) => true
    case (MaxDepthExceeded(max1), MaxDepthExceeded(max2)) => max1 == max2
    case (MissingFramingOffset, MissingFramingOffset) => true
    case (IncompatibleFormat(sig1, format1), IncompatibleFormat(sig2, format2)) =>
      sig1 == sig2 && format1 == format2
    case (SignatureMismatch(provided1, expected1), SignatureMismatch(provided2, expected2)) =>
      provided1 == provided2 && expected1 == expected2
    case (OutOfBounds, OutOfBounds) => true
    case (SignatureParse(e1), SignatureParse(e2)) => e1 == e2
    case (EmptyStructure, EmptyStructure) => true
    case (InvalidObjectPath, InvalidObjectPath) => true
    case (_, _) => false
  }

  /** An `InputOutput` error compares unequal to every error, itself included. */
  lemma InputOutputNeverEqual(a: Error, b: Error)
    requires a.InputOutput? || b.InputOutput?
    ensures !Eq(a, b) && !Eq(b, a)
  {
  }

  /** Every error but `InputOutput` equals itself: `Eq` is reflexive exactly off that variant. */
  lemma EqReflexiveExceptInputOutput(e: Error)
    ensures Eq(e, e) <==> !e.InputOutput?
  {
  }

  /** Errors of different variants never compare equal. */
  lemma DifferentKindsNeverEqual(a: Error, b: Error)
    requires Kind(a) != Kind(b)
    ensures !Eq(a, b)
  {
  }

  lemma EqSymmetric(a: Error, b: Error)
    ensures Eq(a, b) <==> Eq(b, a)
  {
  }

  lemma EqTransitive(a: Error, b: Error, c: Error)
    requires Eq(a, b) && Eq(b, c)
    ensures Eq(a, c)
  {
  }

  /** Two depth errors are equal exactly when they name the same limit. */
  lemma MaxDepthExceededEq(max1: MaxDepthExceeded, max2: MaxDepthExceeded)
    ensures Eq(MaxDepthExceeded(max1), MaxDepthExceeded(max2)) <==> max1 == max2
  {
  }

  /** `impl error::Error for Error`: the wrapped cause, if any. */
  datatype Cause = IoCause(io: Arc<IoError>) | Utf8Cause(utf8: Utf8Error)

  /**
   * `Error::source`: only `InputOutput` and `Utf8` expose a cause, and the
   * cause is the payload they wrap.
   */
  function Source(e: Error): (r: Option<Cause>)
    ensures r.Some? <==> e.InputOutput? || e.Utf8?
    ensures e.InputOutput? ==> r == Some(IoCause(e.io))
    ensures e.Utf8? ==> r == Some(Utf8Cause(e.utf8))
  {
    match e
    case InputOutput(io) => Some(IoCause(io))
    case Utf8(u) => Some(Utf8Cause(u))
    case _ => None
  }

  /**
   * `impl Clone for Error`: rebuilds each variant from a copy of its payload.
   * An `InputOutput` error's clone holds the very same `Arc`, so the clone is
   * indistinguishable from the original.
   */
  function Clone(e: Error): (r: Error)
    ensures r == e
  {
    match e
    case Message(s) => Message(s)
    case InputOutput(io) => InputOutput(io)
    case IncorrectType => IncorrectType
    case Utf8(u) => Utf8(u)
    case PaddingNot0(b) => PaddingNot0(b)
    case UnknownFd => UnknownFd
    case MissingFramingOffset => MissingFramingOffset
    case IncompatibleFormat(sig, format) => IncompatibleFormat(sig, format)
    case SignatureMismatch(provided, expected) => SignatureMismatch(provided, expected)
    case OutOfBounds => OutOfBounds
    case MaxDepthExceeded(max) => MaxDepthExceeded(max)
    case SignatureParse(pe) => SignatureParse(pe)
    case EmptyStructure => EmptyStructure
    case InvalidObjectPath => InvalidObjectPath
  }

  /** A clone compares equal to its original, except for `InputOutput`. */
  lemma CloneEqualsOriginal(e: Error)
    ensures Eq(Clone(e), e) <==> !e.InputOutput?
  {
  }

  /** A cloned `InputOutput` error shares the original's underlying `io::Error`. */
  lemma CloneSharesIoError(e: Error)
    requires e.InputOutput?
    ensures Clone(e).InputOutput? && Clone(e).io == e.io
    ensures Source(Clone(e)) == Source(e)
  {
  }

  /**
   * `impl Display for Error`, given the payloads' own formatters. A `Message`
   * shows its text unchanged; the I/O, UTF-8 and signature-parse errors hand
   * over to their payload's formatter.
   */
  function Display(e: Error, f: Formatters): (s: string)
    ensures e.Message? ==> s == e.text
    ensures e.InputOutput? ==> s == f.io(e.io.inner)
    ensures e.Utf8? ==> s == f.utf8(e.utf8)
    ensures e.SignatureParse? ==> s == f.signatureError(e.parseError)
  {
    match e
    case Message(s) => s
    case InputOutput(io) => f.io(io.inner)
    case IncorrectType => "incorrect type"
    case Utf8(u) => f.utf8(u)
    case PaddingNot0(b) => "Unexpected non-0 padding byte `" + ToDecimal(b) + "`"
    case UnknownFd => "File descriptor not in the given FD index"
    case MissingFramingOffset => "Missing framing offset at the end of GVariant-encoded container"
    case IncompatibleFormat(sig, format) =>
      "Type `" + f.signature(sig) + "` is not compatible with `" + f.format(format) + "` format"
    case SignatureMismatch(provided, expected) =>
      "Signature mismatch: got `" + f.signature(provided) + "`, expected " + expected
    case OutOfBounds => "Out of bounds range specified"
    case MaxDepthExceeded(max) => MaxDepthMessage(max)
    case SignatureParse(pe) => f.signatureError(pe)
    case EmptyStructure => "Attempted to create an empty structure"
    case InvalidObjectPath => "Invalid object path"
  }

  /** The variants whose message is fixed by error.rs alone. */
  predicate HasOwnText(e: Error) {
    e.IncorrectType? || e.PaddingNot0? || e.UnknownFd? || e.MissingFramingOffset?
    || e.OutOfBounds? || e.MaxDepthExceeded? || e.EmptyStructure? || e.InvalidObjectPath?
  }

  /** A depth error displays as its limit's message. */
  lemma DisplayMaxDepthExceeded(max: MaxDepthExceeded, f: Formatters)
    ensures Display(MaxDepthExceeded(max), f) == MaxDepthMessage(max)
  {
  }

  /** The message of a variant with its own text does not depend on any foreign formatter. */
  lemma DisplayOwnTextIndependent(e: Error, f: Formatters, g: Formatters)
    requires HasOwnText(e)
    ensures Display(e, f) == Display(e, g)
  {
  }

  /**
   * The length of a message with its own text. Apart from the two depth
   * limits that share a length, it already tells the variants apart.
   */
  function OwnTextLength(e: Error): nat
    requires HasOwnText(e)
  {
    match e
    case IncorrectType => 14
    case PaddingNot0(b) => 32 + |ToDecimal(b)|
    case UnknownFd => 41
    case MissingFramingOffset => 63
    case OutOfBounds => 29
    case MaxDepthExceeded(max) => if max == Array then 57 else 61
    case EmptyStructure => 38
    case InvalidObjectPath => 19
  }

  lemma DisplayOwnTextLength(e: Error, f: Formatters)
    requires HasOwnText(e)
    ensures |Display(e, f)| == OwnTextLength(e)
    ensures e.PaddingNot0? ==> 33 <= OwnTextLength(e) <= 35
  {
    if e.PaddingNot0? {
      U8DecimalLength(e.padding);
    }
  }

  /**
   * Among the variants with their own text, the message identifies the error:
   * distinct variants, distinct depth limits and distinct padding bytes all
   * display differently.
   */
  lemma DisplayOwnTextInjective(a: Error, b: Error, f: Formatters)
    requires HasOwnText(a) && HasOwnText(b)
    ensures Display(a, f) == Display(b, f) <==> a == b
  {
    if Display(a, f) == Display(b, f) {
      DisplayOwnTextLength(a, f);
      DisplayOwnTextLength(b, f);
      if a.PaddingNot0? && b.PaddingNot0? {
        var s, t := Display(a, f), Display(b, f);
        assert s[31..|s| - 1] == ToDecimal(a.padding);
        assert t[31..|t| - 1] == ToDecimal(b.padding);
        ToDecimalInjective(a.padding, b.padding);
      } else if a.MaxDepthExceeded? && b.MaxDepthExceeded? {
        MaxDepthMessageInjective(a.max, b.max);
      }
    }
  }

  /**
   * `de::Error::custom` and `ser::Error::custom` (identical bodies): a
   * `Message` carrying `msg.to_string()`, where `show` is `msg`'s `Display`.
   * Displaying the result gives back exactly that text.
   */
  function Custom<T>(msg: T, show: T -> string): (r: Error)
    ensures r.Message? && Source(r) == None
    ensures forall f :: Display(r, f) == show(msg)
  {
    Message(show(msg))
  }

  /** Two custom errors are equal exactly when their texts are. */
  lemma CustomEq<T, U>(m1: T, show1: T -> string, m2: U, show2: U -> string)
    ensures Eq(Custom(m1, show1), Custom(m2, show2)) <==> show1(m1) == show2(m2)
  {
  }

  /** `impl From<io::Error> for Error`: wraps the error in a fresh `Arc`. */
  method FromIoError(val: IoError) returns (r: Error)
    ensures r.InputOutput? && fresh(r.io) && r.io.inner == val
    ensures Source(r) == Some(IoCause(r.io))
  {
    var shared := new Arc(val);
    r := InputOutput(shared);
  }
}
