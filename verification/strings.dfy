/** String helpers the application relies on from JavaScript's String.prototype. */
module Strings {

  /** ASCII lower-case letter. */
  predicate IsLowerAscii(c: char) {
    'a' <= c <= 'z'
  }

  /** True when a string holds no ASCII lower-case letter. */
  predicate HasNoLower(s: string) {
    forall i :: 0 <= i < |s| ==> !IsLowerAscii(s[i])
  }

  /** Upper-cases one character: 'a'..'z' map to 'A'..'Z', everything else is kept. */
  function UpperChar(c: char): (u: char)
    ensures !IsLowerAscii(u)
    ensures IsLowerAscii(c) ==> 'A' <= u <= 'Z' && u as int + 32 == c as int
    ensures !IsLowerAscii(c) ==> u == c
  {
    if IsLowerAscii(c) then (c as int - 32) as char else c
  }

  /** `s.toUpperCase()`, restricted to the ASCII letters: same length, every
      lower-case letter replaced by its capital 32 code points below, every
      other character kept, so no lower-case letter is left and the result is
      empty exactly when the input is (JavaScript truthiness is kept). */
  function ToUpper(s: string): (u: string)
    ensures |u| == |s|
    ensures forall i :: 0 <= i < |s| && IsLowerAscii(s[i]) ==>
      'A' <= u[i] <= 'Z' && u[i] as int + 32 == s[i] as int
    ensures forall i :: 0 <= i < |s| && !IsLowerAscii(s[i]) ==> u[i] == s[i]
    ensures HasNoLower(u)
    ensures u == "" <==> s == ""
  {
    seq(|s|, i requires 0 <= i < |s| => UpperChar(s[i]))
  }
}
