// Names in a route map: what the validator accepts (ridl/model.py) and how
// emitters spell them (ridl/naming.py, ridl/emit/rust.py).
module Naming {
  import opened Basics
  import opened Json

  // ------------------------------------------------------ accepted names

  predicate Lower(c: char) { 'a' <= c <= 'z' }

  predicate IdentStart(c: char) { Lower(c) || 'A' <= c <= 'Z' || c == '_' }

  predicate Ident(s: string) {
    s != "" && IdentStart(s[0]) && forall i :: 0 <= i < |s| ==> IdentStart(s[i]) || IsDigit(s[i])
  }

  predicate SnakeCase(s: string) {
    s != "" && Lower(s[0]) && forall i :: 0 <= i < |s| ==> Lower(s[i]) || IsDigit(s[i]) || s[i] == '_'
  }

  /** Python's `$` also matches before a final newline. */
  function Chomp(s: string): string {
    if s != "" && s[|s| - 1] == '\n' then s[..|s| - 1] else s
  }

  // -------------------------------------------------------------- words

  /** Python's `\\s`. */
  predicate White(c: char) {
    var n := c as int;
    9 <= n <= 13 || 28 <= n <= 32 || n == 0x85 || n == 0xA0 || n == 0x1680 || 0x2000 <= n <= 0x200A
    || n == 0x2028 || n == 0x2029 || n == 0x202F || n == 0x205F || n == 0x3000
  }

  predicate Separator(c: char) { c == '_' || c == '-' || White(c) }

  predicate Upper(c: char) { 'A' <= c <= 'Z' }

  predicate LowerOrDigit(c: char) { 'a' <= c <= 'z' || IsDigit(c) }

  function ToLower(c: char): char {
    if Upper(c) then (c as int + 32) as char else c
  }

  /** `snake`, reading on: `prev` is the character just before, in the same run
      without separators; `started` says that a word was written. */
  function SnakeFrom(s: string, prev: Option<char>, started: bool): string {
    if s == "" then ""
    else if Separator(s[0]) then SnakeFrom(s[1..], None, started)
    else
      var newWord := prev.None? || (LowerOrDigit(prev.value) && Upper(s[0]));
      (if started && newWord then "_" else "") + [ToLower(s[0])] + SnakeFrom(s[1..], Some(s[0]), true)
  }

  function Snake(name: string): string { SnakeFrom(name, None, false) }

  function ToUpper(c: char): char {
    if Lower(c) then (c as int - 32) as char else c
  }

  /** `pascal`, reading on as `SnakeFrom` does. */
  function PascalFrom(s: string, prev: Option<char>): string {
    if s == "" then ""
    else if Separator(s[0]) then PascalFrom(s[1..], None)
    else
      var newWord := prev.None? || (LowerOrDigit(prev.value) && Upper(s[0]));
      [if newWord then ToUpper(ToLower(s[0])) else ToLower(s[0])] + PascalFrom(s[1..], Some(s[0]))
  }

  function Pascal(name: string): string { PascalFrom(name, None) }

  // ------------------------------------------- enum values on Rust's wire

  /** serde's `rename_all = "snake_case"` on a variant name. */
  function SerdeFrom(s: string, first: bool): string {
    if s == "" then ""
    else (if !first && Upper(s[0]) then "_" else "") + [ToLower(s[0])] + SerdeFrom(s[1..], false)
  }

  /** How the emitted Rust enum writes a declared variant. */
  function Spelled(variant: string): string { SerdeFrom(Pascal(variant), true) }
}
