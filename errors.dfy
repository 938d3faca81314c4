/** The failures the machine reports to its caller instead of guessing. */
module Errors {

  datatype Error =
    | MalformedNumber(letter: char)          // a word letter not followed by a number
    | UnexpectedCharacter(c: char)           // text that is neither a word nor whitespace
    | UnknownCoordinateSystem(name: string) // a coordinate system missing from the offset table
}
