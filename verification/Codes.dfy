/** The exception codes of the other modules, as section 9.3.5 of Forth 2012 and the implementation number
    them. */
module Codes {
  import Compiling
  import Dictionary
  import Division
  import Evaluating
  import Exceptions
  import Machine
  import Numerals
  import Pictured

  lemma ExceptionCodes()
    ensures Machine.E_STKOVERFLOW == -3 && Machine.E_STKUNDERFLOW == -4
    ensures Machine.E_RSTKOVERFLOW == -5 && Machine.E_RSTKUNDERFLOW == -6
    ensures Pictured.E_INVMEMADDR == -9
    ensures Division.E_DIVBYZERO == -10 && Division.E_RSLTOUTORANGE == -11
    ensures Evaluating.E_UNDEFWORD == -13 && Evaluating.E_COMPONLYWORD == -14
    ensures Dictionary.E_INVFORGET == -15
    ensures Numerals.E_PNOOVERFLOW == -17
    ensures Compiling.E_CSMISMATCH == -22 == Dictionary.E_CSMISMATCH
    ensures Machine.E_RSTKIMBALANCE == -25
    ensures Dictionary.E_NESTEDCOMPILE == -29 && Dictionary.E_STKOVERFLOW == -3
    ensures Exceptions.E_QUIT == -56 && Exceptions.E_BYE == -257 && Machine.E_BUG == -258
    ensures Dictionary.E_OK == 0 == Division.E_OK == Exceptions.E_OK
  {
  }
}
