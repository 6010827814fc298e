/**
 * The error taxonomy of icon-service (exception.py): the `ExceptionCode`
 * enumeration and its text, `IconServiceBaseException` as a (message, code)
 * value whose message defaults from the code, the subclasses that pin a code,
 * and `IconScoreException`, whose code is banded into 32..99.
 */
module Exceptions {
  import opened Wrappers

  // ------------------------------------------------------ codes

  datatype ExceptionCode =
    | Ok | SystemError | ContractNotFound | MethodNotFound | MethodNotPayable
    | IllegalFormat | InvalidParameter | InvalidInstance | InvalidContainerAccess
    | AccessDenied | OutOfStep | OutOfBalance | TimeoutError | StackOverflow
    | InvalidPackage | MethodNotAllowed | ScoreError | End

  const SCORE_ERROR := 32
  const END := 99

  /** The integer value of each member. */
  function Value(c: ExceptionCode): int
  {
    match c
    case Ok => 0
    case SystemError => 1
    case ContractNotFound => 2
    case MethodNotFound => 3
    case MethodNotPayable => 4
    case IllegalFormat => 5
    case InvalidParameter => 6
    case InvalidInstance => 7
    case InvalidContainerAccess => 8
    case AccessDenied => 9
    case OutOfStep => 10
    case OutOfBalance => 11
    case TimeoutError => 12
    case StackOverflow => 13
    case InvalidPackage => 14
    case MethodNotAllowed => 15
    case ScoreError => SCORE_ERROR
    case End => END
  }

  /** `ExceptionCode(n)`: the member with value `n`, if there is one. */
  function FromValue(n: int): (r: Option<ExceptionCode>)
    ensures r.Some? <==> (0 <= n <= 15 || n == SCORE_ERROR || n == END)
  {
    if n == 0 then Some(Ok)
    else if n == 1 then Some(SystemError)
    else if n == 2 then Some(ContractNotFound)
    else if n == 3 then Some(MethodNotFound)
    else if n == 4 then Some(MethodNotPayable)
    else if n == 5 then Some(IllegalFormat)
    else if n == 6 then Some(InvalidParameter)
    else if n == 7 then Some(InvalidInstance)
    else if n == 8 then Some(InvalidContainerAccess)
    else if n == 9 then Some(AccessDenied)
    else if n == 10 then Some(OutOfStep)
    else if n == 11 then Some(OutOfBalance)
    else if n == 12 then Some(TimeoutError)
    else if n == 13 then Some(StackOverflow)
    else if n == 14 then Some(InvalidPackage)
    else if n == 15 then Some(MethodNotAllowed)
    else if n == SCORE_ERROR then Some(ScoreError)
    else if n == END then Some(End)
    else None
  }

  /** `@unique`: every member has its own value, so the value determines the member. */
  lemma ValueDeterminesMember(c: ExceptionCode)
    ensures FromValue(Value(c)) == Some(c)
    ensures Value(c) in {0, 1, 2, 3, 4, 5, 6, 7, 8, 9, 10, 11, 12, 13, 14, 15, SCORE_ERROR, END}
  {
  }

  lemma ValuesDistinct(c1: ExceptionCode, c2: ExceptionCode)
    requires c1 != c2
    ensures Value(c1) != Value(c2)
  {
    ValueDeterminesMember(c1);
    ValueDeterminesMember(c2);
  }

  lemma FromValueIsInverse(n: int)
    requires FromValue(n).Some?
    ensures Value(FromValue(n).value) == n
  {
  }

  /** The member name, `self.name`. */
  function Name(c: ExceptionCode): string
  {
    match c
    case Ok => "OK"
    case SystemError => "SYSTEM_ERROR"
    case ContractNotFound => "CONTRACT_NOT_FOUND"
    case MethodNotFound => "METHOD_NOT_FOUND"
    case MethodNotPayable => "METHOD_NOT_PAYABLE"
    case IllegalFormat => "ILLEGAL_FORMAT"
    case InvalidParameter => "INVALID_PARAMETER"
    case InvalidInstance => "INVALID_INSTANCE"
    case InvalidContainerAccess => "INVALID_CONTAINER_ACCESS"
    case AccessDenied => "ACCESS_DENIED"
    case OutOfStep => "OUT_OF_STEP"
    case OutOfBalance => "OUT_OF_BALANCE"
    case TimeoutError => "TIMEOUT_ERROR"
    case StackOverflow => "STACK_OVERFLOW"
    case InvalidPackage => "INVALID_PACKAGE"
    case MethodNotAllowed => "METHOD_NOT_ALLOWED"
    case ScoreError => "SCORE_ERROR"
    case End => "END"
  }

  // ------------------------------------------------------ code text

  predicate IsUpper(c: char) { 'A' <= c <= 'Z' }
  predicate IsLower(c: char) { 'a' <= c <= 'z' }

  function ToUpper(c: char): char { if IsLower(c) then (c as int - 32) as char else c }
  function ToLower(c: char): char { if IsUpper(c) then (c as int + 32) as char else c }

  /** A member name: upper-case ASCII letters and underscores, starting with a letter. */
  predicate IsMemberName(s: string)
  {
    |s| > 0 && IsUpper(s[0]) && forall i :: 0 <= i < |s| ==> IsUpper(s[i]) || s[i] == '_'
  }

  /** `capitalize()` then `replace('_', ' ')`, on member names. */
  function Describe(name: string): (r: string)
    ensures |r| == |name|
  {
    if name == [] then []
    else [ToUpper(name[0])] + LowerSpaced(name[1..])
  }

  /** Every character lower-cased, and `_` made a space. */
  function LowerSpaced(s: string): (r: string)
    ensures |r| == |s|
    ensures forall i :: 0 <= i < |s| ==> r[i] == if s[i] == '_' then ' ' else ToLower(s[i])
  {
    if s == [] then [] else [if s[0] == '_' then ' ' else ToLower(s[0])] + LowerSpaced(s[1..])
  }

  /** The inverse of `Describe` on member names: every letter upper-cased, and a space made `_`. */
  function Undescribe(text: string): (r: string)
    ensures |r| == |text|
    ensures forall i :: 0 <= i < |text| ==> r[i] == if text[i] == ' ' then '_' else ToUpper(text[i])
  {
    if text == [] then [] else [if text[0] == ' ' then '_' else ToUpper(text[0])] + Undescribe(text[1..])
  }

  /** `str(code)` of a member: its name capitalised, underscores turned into spaces. */
  function Text(c: ExceptionCode): string
  {
    Describe(Name(c))
  }

  /** Every member name starts with a capital. */
  lemma NameStartsWithCapital(c: ExceptionCode)
    ensures |Name(c)| > 0 && IsUpper(Name(c)[0])
  {
  }

  /** A description keeps the capital its name starts with. */
  lemma DescribeKeepsCapital(name: string)
    requires |name| > 0 && IsUpper(name[0])
    ensures |Describe(name)| > 0 && Describe(name)[0] == name[0]
  {
  }

  /** The text of a member is as long as its name and starts with the name's capital. */
  lemma TextStartsWithCapital(c: ExceptionCode)
    ensures |Text(c)| == |Name(c)| > 0
    ensures Text(c)[0] == Name(c)[0] && IsUpper(Text(c)[0])
  {
    NameStartsWithCapital(c);
    DescribeKeepsCapital(Name(c));
  }

  /** The description of a member name loses nothing: upper-casing it back gives the name. */
  lemma UndescribeDescribe(name: string)
    requires IsMemberName(name)
    ensures Undescribe(Describe(name)) == name
  {
    var d := Describe(name);
    assert d[0] == ToUpper(name[0]);
    forall i | 0 <= i < |name|
      ensures Undescribe(d)[i] == name[i]
    {
      if i > 0 {
        assert d[i] == LowerSpaced(name[1..])[i - 1];
      }
    }
  }

  /** Distinct member names have distinct descriptions. */
  lemma DescribeInjective(n1: string, n2: string)
    requires IsMemberName(n1) && IsMemberName(n2) && n1 != n2
    ensures Describe(n1) != Describe(n2)
  {
    UndescribeDescribe(n1);
    UndescribeDescribe(n2);
  }

  lemma LowerSpacedCoreError()
    ensures LowerSpaced("CORE_ERROR") == "core error"
  {
  }

  /** `str(ExceptionCode.SCORE_ERROR)` is "Score error". */
  lemma ScoreErrorText()
    ensures Text(ScoreError) == "Score error"
  {
    var name := "SCORE_ERROR";
    assert name[1..] == "CORE_ERROR";
    LowerSpacedCoreError();
  }

  lemma EndText()
    ensures Text(End) == "End"
  {
    var name := "END";
    assert name[1..] == "ND";
  }

  // ------------------------------------------------------ the code an exception holds

  /**
   * The code an exception holds: a member, or the plain int that
   * `ExceptionCode.SCORE_ERROR + index` yields when it is not clamped (an
   * `IntEnum` plus an `int` is an `int`, not a member).
   */
  datatype Code = Member(member: ExceptionCode) | Raw(n: int)

  function CodeValue(code: Code): int
  {
    match code
    case Member(c) => Value(c)
    case Raw(n) => n
  }

  function DecimalDigits(n: nat): (r: string)
    ensures |r| > 0
    ensures forall i :: 0 <= i < |r| ==> '0' <= r[i] <= '9'
    decreases n
  {
    if n < 10 then [(48 + n) as char] else DecimalDigits(n / 10) + [(48 + n % 10) as char]
  }

  /** `str(n)` of an int. */
  function Decimal(n: int): (r: string)
    ensures |r| > 0
    ensures n < 0 <==> r[0] == '-'
    ensures forall i :: (if n < 0 then 1 else 0) <= i < |r| ==> '0' <= r[i] <= '9'
  {
    if n < 0 then "-" + DecimalDigits(-n) else DecimalDigits(n)
  }

  /**
   * `str(code)`: the member's text, or the int in decimal. The first character
   * tells them apart: a capital letter exactly for a member.
   */
  function CodeText(code: Code): (r: string)
    ensures |r| > 0 && (IsUpper(r[0]) <==> code.Member?)
  {
    match code
    case Member(c) => TextStartsWithCapital(c); Text(c)
    case Raw(n) => Decimal(n)
  }

  // ------------------------------------------------------ exceptions

  /** `IconServiceBaseException` and the subclasses that carry behaviour. */
  datatype Kind =
    | ServiceBase | ScoreNotFound | MethodNotFoundKind | MethodNotPayableKind | InvalidParams
    | AccessDeniedKind | Database | InvalidInstanceKind | InvalidContainerAccessKind
    | IllegalFormatKind | InvalidRequest | InvalidExternal | InvalidPayable | InvalidEventLog
    | InvalidInterface | OutOfBalanceKind | Timeout | StackOverflowKind | InvalidPackageKind
    | MethodNotAllowedKind | IconScore

  datatype ServiceException = ServiceException(kind: Kind, message: string, code: Code)

  /** `IconServiceBaseException.__init__`: a missing message becomes `str(code)`. */
  function NewServiceException(kind: Kind, message: Option<string>, code: Code): (e: ServiceException)
    ensures e.kind == kind && e.code == code
    ensures message.Some? ==> e.message == message.value
    ensures message.None? ==> e.message == CodeText(code)
  {
    ServiceException(kind, if message.Some? then message.value else CodeText(code), code)
  }

  /** The code each subclass pins; the base class and `IconScoreException` take theirs as an argument. */
  function FixedCode(kind: Kind): Option<ExceptionCode>
  {
    match kind
    case ServiceBase => None
    case IconScore => None
    case ScoreNotFound => Some(ContractNotFound)
    case MethodNotFoundKind => Some(MethodNotFound)
    case MethodNotPayableKind => Some(MethodNotPayable)
    case InvalidParams => Some(InvalidParameter)
    case AccessDeniedKind => Some(AccessDenied)
    case Database => Some(AccessDenied)
    case InvalidInstanceKind => Some(InvalidInstance)
    case InvalidContainerAccessKind => Some(InvalidContainerAccess)
    case IllegalFormatKind => Some(IllegalFormat)
    case InvalidRequest => Some(IllegalFormat)
    case InvalidExternal => Some(IllegalFormat)
    case InvalidPayable => Some(IllegalFormat)
    case InvalidEventLog => Some(IllegalFormat)
    case InvalidInterface => Some(IllegalFormat)
    case OutOfBalanceKind => Some(OutOfBalance)
    case Timeout => Some(TimeoutError)
    case StackOverflowKind => Some(StackOverflow)
    case InvalidPackageKind => Some(InvalidPackage)
    case MethodNotAllowedKind => Some(MethodNotAllowed)
  }

  /** `XxxException(message)` of a subclass that pins its code. */
  function NewFixed(kind: Kind, message: Option<string>): (e: ServiceException)
    requires FixedCode(kind).Some?
    ensures e.kind == kind && e.code == Member(FixedCode(kind).value)
    ensures message.Some? ==> e.message == message.value
    ensures message.None? ==> e.message == Text(FixedCode(kind).value)
  {
    NewServiceException(kind, message, Member(FixedCode(kind).value))
  }

  /** The codes the subclasses pin, by value. */
  lemma FixedCodeValues()
    ensures Value(FixedCode(MethodNotFoundKind).value) == 3
    ensures forall k :: k in {IllegalFormatKind, InvalidRequest, InvalidExternal, InvalidPayable, InvalidEventLog, InvalidInterface}
                        ==> Value(FixedCode(k).value) == 5
    ensures Value(FixedCode(InvalidParams).value) == 6
    ensures Value(FixedCode(Database).value) == 9 && FixedCode(Database) == FixedCode(AccessDeniedKind)
    ensures forall k :: FixedCode(k).Some? ==> 0 < Value(FixedCode(k).value) < SCORE_ERROR
  {
  }

  /** The argument `index`: an int (a bool is one), or anything else. */
  datatype IndexArg = IntArg(i: int) | OtherArg

  /** `ExceptionCode.SCORE_ERROR + index`, clamped into `SCORE_ERROR .. END`; only the clamped ends are members. */
  function ScoreCode(index: int): (code: Code)
    ensures SCORE_ERROR <= CodeValue(code) <= END
    ensures 0 <= index <= END - SCORE_ERROR ==> CodeValue(code) == SCORE_ERROR + index
    ensures index < 0 ==> code == Member(ScoreError)
    ensures index > END - SCORE_ERROR ==> code == Member(End)
  {
    var code := SCORE_ERROR + index;
    if code < SCORE_ERROR then Member(ScoreError)
    else if code > END then Member(End)
    else Raw(code)
  }

  /** Banding keeps the order of indices. */
  lemma ScoreCodeMonotone(i: int, j: int)
    requires i <= j
    ensures CodeValue(ScoreCode(i)) <= CodeValue(ScoreCode(j))
  {
  }

  /**
   * `IconScoreException(message, index)`: a non-int index raises an
   * `InvalidParamsException` instead, before any code is computed.
   */
  function NewIconScoreException(message: Option<string>, index: IndexArg): (e: ServiceException)
    ensures index.OtherArg? <==> e.kind == InvalidParams
    ensures index.OtherArg? ==> e == NewFixed(InvalidParams, Some("Invalid index type: not an integer"))
    ensures index.IntArg? ==> e.kind == IconScore && e.code == ScoreCode(index.i)
    ensures index.IntArg? && message.Some? ==> e.message == message.value
  {
    match index
    case OtherArg => NewFixed(InvalidParams, Some("Invalid index type: not an integer"))
    case IntArg(i) => NewServiceException(IconScore, message, ScoreCode(i))
  }

  /**
   * The default message of an `IconScoreException` is the decimal code while
   * the code is in the band, and the member text once it is clamped.
   */
  lemma IconScoreMessageInBand(i: int)
    requires 0 <= i <= END - SCORE_ERROR
    ensures NewIconScoreException(None, IntArg(i)).message == Decimal(SCORE_ERROR + i)
  {
  }

  /** Index 0 gives the message "32", not the text of `SCORE_ERROR`. */
  lemma IconScoreMessageIndexZero()
    ensures NewIconScoreException(None, IntArg(0)).message == "32"
  {
    IconScoreMessageInBand(0);
    assert DecimalDigits(3) == "3";
    assert DecimalDigits(32) == DecimalDigits(3) + ['2'];
  }

  /** A negative index gives "Score error", an index past the band "End". */
  lemma IconScoreMessageClamped(i: int)
    requires i < 0 || i > END - SCORE_ERROR
    ensures NewIconScoreException(None, IntArg(i)).message == if i < 0 then "Score error" else "End"
  {
    ScoreErrorText();
    EndText();
  }

  /** `__str__`: the message, then the code's text in parentheses. */
  function StrForm(e: ServiceException): (r: string)
    ensures |r| == |e.message| + |CodeText(e.code)| + 3
    ensures r[..|e.message|] == e.message
    ensures r[|e.message|..] == " (" + CodeText(e.code) + ")"
  {
    var r := e.message + (" (" + CodeText(e.code) + ")");
    assert r[..|e.message|] == e.message;
    assert r[|e.message|..] == " (" + CodeText(e.code) + ")";
    r
  }

  /** With no message, the text of the code shows twice. */
  lemma StrFormWithoutMessage(kind: Kind, code: Code)
    ensures var t := CodeText(code);
            StrForm(NewServiceException(kind, None, code)) == t + " (" + t + ")"
  {
    var t := CodeText(code);
    assert t + (" (" + t + ")") == t + " (" + t + ")";
  }
}
