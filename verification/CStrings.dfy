/** C strings: texts without a terminator inside, and buffers that hold one. */
module CStrings {

  ghost predicate CString(s: string) {
    forall i :: 0 <= i < |s| ==> s[i] != '\0'
  }

  /** The buffer begins with `s` and its terminator. */
  ghost predicate Holds(buffer: seq<char>, s: string) {
    |s| < |buffer| && buffer[..|s|] == s && buffer[|s|] == '\0'
  }
}
