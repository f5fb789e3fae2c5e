// Character classes and small string helpers shared by the pipeline, following
// the JavaScript definitions the engine relies on (regex `\s`, `\w`,
// `String.prototype.trim`, `split('\n')`).
module JsText {

  /** JavaScript's `\s`: WhiteSpace and LineTerminator code points (also what `trim` removes). */
  predicate IsWs(c: char)
  {
    var n := c as int;
    n == 0x09 || n == 0x0A || n == 0x0B || n == 0x0C || n == 0x0D || n == 0x20 ||
    n == 0xA0 || n == 0x1680 || (0x2000 <= n <= 0x200A) || n == 0x2028 || n == 0x2029 ||
    n == 0x202F || n == 0x205F || n == 0x3000 || n == 0xFEFF
  }

  /** JavaScript's `\w`: ASCII letters, digits and underscore. */
  predicate IsWordChar(c: char)
  {
    ('a' <= c <= 'z') || ('A' <= c <= 'Z') || ('0' <= c <= '9') || c == '_'
  }

  /** Number of occurrences of `c` in `s` (the length of `s.match(/c/g) || []`). */
  function Count(s: string, c: char): nat
  {
    multiset(s)[c]
  }

  /** `s.trim()` is empty: every character is whitespace. */
  predicate IsBlank(s: string)
  {
    forall i | 0 <= i < |s| :: IsWs(s[i])
  }

  /** `t` occurs in `s` at offset `i`. */
  predicate HasPrefixAt(s: string, i: nat, t: string)
  {
    i + |t| <= |s| && s[i..i + |t|] == t
  }

  /** `t` occurs somewhere in `s`. */
  predicate Contains(s: string, t: string)
  {
    exists i | 0 <= i <= |s| :: HasPrefixAt(s, i, t)
  }

  lemma CountAppend(a: string, b: string, c: char)
    ensures Count(a + b, c) == Count(a, c) + Count(b, c)
  {
    assert multiset(a + b) == multiset(a) + multiset(b);
  }
}
