/** The calculator's closed error enumeration and the messages it renders. */
module CalcErrors {

  /** One value per enumerator of FunkiiCalcErrors_t; `Nada` is "no error". */
  datatype CalcError =
    | Nada
    | Empty
    | Syntax
    | SyntaxVars
    | SynVarsInfLoop
    | SynPar
    | SynEmptyPar
    | SynInvalidChar
    | Div0
    | EDom
    | ERange
    | FibOutOfBounds
    | Bin
    | Oct
    | Hex
    | FactOutOfBounds
    | IntBitshift
    | Epic

  /** The numeric value the C++ enumerator carries. */
  function Code(e: CalcError): (n: nat)
    ensures n == 0 <==> e == Nada
    ensures n <= 16 || n == 100
  {
    match e
    case Nada => 0
    case Empty => 1
    case Syntax => 2
    case SyntaxVars => 3
    case SynVarsInfLoop => 4
    case SynPar => 5
    case SynEmptyPar => 6
    case SynInvalidChar => 7
    case Div0 => 8
    case EDom => 9
    case ERange => 10
    case FibOutOfBounds => 11
    case Bin => 12
    case Oct => 13
    case Hex => 14
    case FactOutOfBounds => 15
    case IntBitshift => 16
    case Epic => 100
  }

  /** Distinct enumerators carry distinct codes, so the enumeration is a faithful flat code list. */
  lemma {:induction false} CodeInjective(a: CalcError, b: CalcError)
    ensures Code(a) == Code(b) ==> a == b
  {
  }

  const ErrorPrefix: string := "[CALC] Error: "

  /** The text after the common prefix, one per error kind. */
  function ErrorDetail(e: CalcError): string
    requires e != Nada
  {
    match e
    case Empty => "wut? no formula?"
    case Syntax => "Syntax Error!! l2syntax~!"
    case SyntaxVars => "Syntax Error!! you suck at assigning Vars!"
    case SynVarsInfLoop => "Possible Infinite Loop While assigning Vars!"
    case SynPar => "Parentheses Error!! you suck at punctuation!"
    case SynEmptyPar => "Syntax Error!! l2fillparenthesis!"
    case SynInvalidChar => "Syntax Error!! you suck chars!"
    case Div0 => "Yeah... i can't divide by 0.. :("
    case EDom => "Domain Error... l2calc!!"
    case ERange => "Out of Range... damn you basterd l2stayinrange!!"
    case FibOutOfBounds => "Out of Bounds, cannot Fibonacci!"
    case Bin => "Dude l2binary . . ."
    case Oct => "srsly man l2octal . . ."
    case Hex => "l2hex . . . *sigh* "
    case FactOutOfBounds => "Can only factorial POSITIVE integers... "
    case Epic => "oo noes Epic error... l2noterror!!"
    case IntBitshift => "Can only shift int! l2bitshift~!"
  }

  /** get_error_string: empty for "no error", otherwise the prefix followed by the kind's text. */
  function ErrorString(e: CalcError): (msg: string)
    ensures e == Nada <==> msg == ""
    ensures e != Nada ==> |msg| > |ErrorPrefix| && msg[..|ErrorPrefix|] == ErrorPrefix
  {
    if e == Nada then "" else
      var d := ErrorDetail(e);
      assert (ErrorPrefix + d)[..|ErrorPrefix|] == ErrorPrefix;
      ErrorPrefix + d
  }

  /** Every error kind renders a message of its own: the message identifies the error. */
  lemma {:induction false} ErrorStringInjective(a: CalcError, b: CalcError)
    requires a != b
    ensures ErrorString(a) != ErrorString(b)
  {
    if a != Nada && b != Nada {
      var da, db := ErrorDetail(a), ErrorDetail(b);
      DetailIdentifies(a);
      DetailIdentifies(b);
      assert da != db;
    }
  }

  /** Reads the error kind back from the length and last two characters of its text. */
  function KindOfDetail(d: string): CalcError
  {
    if |d| < 2 then Nada else
    match (|d|, d[|d| - 1], d[|d| - 2])
    case (16, _, _) => Empty
    case (25, _, _) => Syntax
    case (42, _, _) => SyntaxVars
    case (44, _, 's') => SynVarsInfLoop
    case (44, _, _) => SynPar
    case (33, _, _) => SynEmptyPar
    case (30, _, _) => SynInvalidChar
    case (32, '(', _) => Div0
    case (24, _, _) => EDom
    case (48, _, _) => ERange
    case (32, _, 'i') => FibOutOfBounds
    case (19, '.', _) => Bin
    case (23, _, _) => Oct
    case (19, _, _) => Hex
    case (40, _, _) => FactOutOfBounds
    case (34, _, _) => Epic
    case (32, _, _) => IntBitshift
    case _ => Nada
  }

  lemma {:induction false} DetailIdentifies(e: CalcError)
    requires e != Nada
    ensures KindOfDetail(ErrorDetail(e)) == e
  {
    match e {
      case Empty => assert KindOfDetail(ErrorDetail(Empty)) == Empty;
      case Syntax => assert KindOfDetail(ErrorDetail(Syntax)) == Syntax;
      case SyntaxVars => assert KindOfDetail(ErrorDetail(SyntaxVars)) == SyntaxVars;
      case SynVarsInfLoop => assert KindOfDetail(ErrorDetail(SynVarsInfLoop)) == SynVarsInfLoop;
      case SynPar => assert KindOfDetail(ErrorDetail(SynPar)) == SynPar;
      case SynEmptyPar => assert KindOfDetail(ErrorDetail(SynEmptyPar)) == SynEmptyPar;
      case SynInvalidChar => assert KindOfDetail(ErrorDetail(SynInvalidChar)) == SynInvalidChar;
      case Div0 => assert KindOfDetail(ErrorDetail(Div0)) == Div0;
      case EDom => assert KindOfDetail(ErrorDetail(EDom)) == EDom;
      case ERange => assert KindOfDetail(ErrorDetail(ERange)) == ERange;
      case FibOutOfBounds => assert KindOfDetail(ErrorDetail(FibOutOfBounds)) == FibOutOfBounds;
      case Bin => assert KindOfDetail(ErrorDetail(Bin)) == Bin;
      case Oct => assert KindOfDetail(ErrorDetail(Oct)) == Oct;
      case Hex => assert KindOfDetail(ErrorDetail(Hex)) == Hex;
      case FactOutOfBounds => assert KindOfDetail(ErrorDetail(FactOutOfBounds)) == FactOutOfBounds;
      case Epic => assert KindOfDetail(ErrorDetail(Epic)) == Epic;
      case IntBitshift => assert KindOfDetail(ErrorDetail(IntBitshift)) == IntBitshift;
    }
  }

  /** The C library's errno values the calculator distinguishes. */
  datatype Errno = NoErrno | EDomErrno | ERangeErrno | OtherErrno
}
