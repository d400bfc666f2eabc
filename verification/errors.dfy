/** The exceptions the data path can raise, one constructor per kind. */
module Errors {

  datatype Error =
    /** IndexError: a list (filename tokens or a CSV row) is shorter than the index read from it. */
    | IndexOutOfRange(index: nat)
    /** ValueError from int(): the text is not a decimal integer literal. */
    | InvalidLiteral(text: string)
    /**
     * ValueError from datetime(): the year, month or day is out of range. A
     * year, month or day token outside the C int range makes datetime()
     * raise OverflowError instead; that case is this error too.
     */
    | DateOutOfRange(year: int, month: int, day: int)
}
